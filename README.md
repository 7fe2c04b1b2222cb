# kubernetes_job resource and schema validators, modelled in Dafny

This project models two parts of the Terraform Kubernetes provider:

- **the schema validators** of Terraform's `helper/validation` package
  (`validation.dfy`, module `Validation`). Each validator takes the
  dynamically typed value of one configuration field and the field's key,
  and returns a pair of warnings and errors. A dynamic value is a `Value`:
  a Go `int`, a string, a list, or anything else. An error is a record of
  the key and an error kind, and the kind carries whatever the Go message
  prints. Strings are byte sequences, so a length is a byte count, as with
  Go's `len`.
- **the `kubernetes_job` resource callbacks** (`job.dfy`, module
  `KubernetesJob`): Create, Read, Update, Delete with its wait for the Job
  to disappear, and Exists. The framework's `ResourceData` is a class whose
  `id`, `metadata` and `spec` fields the callbacks set. The API client is
  the class `Clientset`, which keeps a log of every call it makes. What the
  cluster answers is a `Cluster` value: one function per kind of call,
  mapping the calls made so far and the call's arguments to the reply. The
  codecs and patch builders defined in other files of the provider
  (`expandMetadata`, `expandJobSpec`, `flattenMetadata`, `flattenJobSpec`,
  `patchMetadata`, `patchJobSpec`, `idParts`, `buildId`) and the JSON
  marshalling of patch operations are the function fields of a `Helpers`
  value. Nothing is assumed about them.

Each callback has a specification function on plain values (`ReadSpec`,
`CreateSpec`, `UpdateSpec`, `DeleteSpec`, `ExistsSpec`) that returns the
error, the new resource data and the call log. The method performing the
calls is proved equal to it. The properties are `ensures` clauses of those
functions and lemmas about them. Among them: where each callback stops, and
which remote calls it has made by then; label normalisation in Read; how
each poll of the delete wait is classified, with success only on a 404;
and how Exists maps outcomes.

Behaviours of the code worth knowing:

- Delete returns every error of the delete call itself, a 404 included; only the wait that follows treats a 404 as success.
- When the wait runs out of time, the error is the last retryable error, "Job <name> still exists" (`StillExists`). There is no separate timeout kind.
- `StringInSlice` stops at its first match.
- `StringLenBetween` measures bytes, not characters.

## Model

| member | source | states |
|---|---|---|
| `Validation.IntBetween` | vendor/github.com/hashicorp/terraform/helper/validation/validation.go:15-30 | no warnings; a non-int gives exactly the one type error; an int gives no error iff `min <= v <= max`, otherwise exactly one range error with both bounds and the value |
| `Validation.IntAtLeast` | vendor/github.com/hashicorp/terraform/helper/validation/validation.go:34-49 | no warnings; a non-int gives exactly one type error; an int gives no error iff `min <= v`, otherwise exactly one error |
| `Validation.IntAtMost` | vendor/github.com/hashicorp/terraform/helper/validation/validation.go:53-68 | no warnings; a non-int gives exactly one type error; an int gives no error iff `v <= max`, otherwise exactly one error |
| `Validation.IntBetweenOneToTen` | vendor/github.com/hashicorp/terraform/helper/validation/validation.go:17-28 | `IntBetween(1, 10)` accepts 1 and 10, rejects 0 and 11 with one range error, and rejects a string with one type error |
| `Validation.IntBetweenIsBothBounds` | vendor/github.com/hashicorp/terraform/helper/validation/validation.go:15-68 | the two-sided check accepts exactly the values both one-sided checks accept |
| `Validation.StringInSlice` | vendor/github.com/hashicorp/terraform/helper/validation/validation.go:73-90 | the scan with early return: no warnings; a non-string gives one type error; a string gives no error iff some element matches it (equal, or equal after lower-casing both when `ignoreCase`), otherwise exactly one error naming the list and the value |
| `Validation.InSliceExact` | vendor/github.com/hashicorp/terraform/helper/validation/validation.go:81-85 | without `ignoreCase`, a value is accepted iff it is an element of the list |
| `Validation.InSliceIgnoringCase` | vendor/github.com/hashicorp/terraform/helper/validation/validation.go:81-85 | with `ignoreCase`, a value is accepted iff some element lower-cases to the value's lower-casing; whatever is accepted without `ignoreCase` is also accepted with it |
| `Validation.InSliceExample` | vendor/github.com/hashicorp/terraform/helper/validation/validation.go:82 | "fOO" matches the list ["Foo"] when case is ignored, and not otherwise |
| `Validation.StringLenBetween` | vendor/github.com/hashicorp/terraform/helper/validation/validation.go:94-106 | no warnings; a non-string gives one type error; a string gives no error iff its byte length is in `[min, max]`, otherwise exactly one error carrying the string |
| `Validation.CIDRNetwork` | vendor/github.com/hashicorp/terraform/helper/validation/validation.go:110-140 | a non-string gives one type error; a parse failure gives exactly one error and nothing else; otherwise the non-canonical check and the prefix-length check are independent: the error count is 0, 1 or 2 accordingly, each error is present iff its condition holds, and the non-canonical error comes first |
| `Validation.CIDRNetworkExamples` | vendor/github.com/hashicorp/terraform/helper/validation/validation.go:118-136 | with `(8, 24)`: "10.0.0.0/16" is accepted, "10.0.0.1/16" gets exactly one error naming "10.0.0.0/16", and "10.0.0.0/4" gets the prefix-length error, given the parser's answers |
| `Validation.ValidateJsonString` | vendor/github.com/hashicorp/terraform/helper/validation/validation.go:144-149 | no error iff the JSON normaliser succeeds; otherwise exactly one error carrying its cause |
| `Validation.ValidateRegexp` | vendor/github.com/hashicorp/terraform/helper/validation/validation.go:167-172 | no error iff the pattern compiles; otherwise exactly one error carrying the cause |
| `Validation.ValidateListUniqueStrings` | vendor/github.com/hashicorp/terraform/helper/validation/validation.go:154-163 | the nested index loop: the result is, in order, one duplicate error per ordered pair `(n1, n2)`, `n1 != n2`, of equal strings, with no warnings; no error iff the strings are pairwise distinct |
| `Validation.NoDuplicateErrorsIffDistinct` | vendor/github.com/hashicorp/terraform/helper/validation/validation.go:155-160 | the reference list of duplicate errors is empty iff all elements are pairwise distinct |
| `Validation.DuplicateErrorsCount` | vendor/github.com/hashicorp/terraform/helper/validation/validation.go:155-160 | a string occurring `c` times is reported exactly `c * (c - 1)` times, once per ordered pair of its positions, so a string appearing twice yields two errors |
| `Validation.DuplicateErrorsNameDuplicates` | vendor/github.com/hashicorp/terraform/helper/validation/validation.go:157-158 | every error carries the key and names a string that occurs at least twice in the list |
| `Validation.DuplicateErrorsExamples` | vendor/github.com/hashicorp/terraform/helper/validation/validation.go:154-163 | ["a", "b", "a"] reports "a" twice and "b" never; ["a", "b", "c"] gives no error |
| `KubernetesJob.StripServerLabels` | kubernetes/resource_kubernetes_job.go:120-137 | with the selector present: the object's labels lose exactly `controller-uid` and `job-name`, and the selector's match labels lose exactly `controller-uid`; every other key keeps its value, and every other field of the Job is unchanged, including the uid, resourceVersion and other server fields of the metadata and the selector's match expressions |
| `KubernetesJob.StripServerLabelsKeepsSelectorJobName` | kubernetes/resource_kubernetes_job.go:132-136 | `job-name` is never removed from the selector's match labels |
| `KubernetesJob.ReadSpec` | kubernetes/resource_kubernetes_job.go:104-155 | Read never changes the id; a malformed id returns its error before any call; otherwise exactly one Get is made; a failed Get returns that error and leaves the data unset; an unset or false `manual_selector` with a nil selector is the nil-dereference crash; otherwise the metadata block is the flattening of the Job with its server labels stripped (or of the Job as returned when `manual_selector` is set) and stays stored even when flattening the spec then fails, with the spec block unchanged; on success the spec block is the flattened spec |
| `KubernetesJob.ReadManualSelectorKeepsLabels` | kubernetes/resource_kubernetes_job.go:121-137 | with `manual_selector` set, neither label map is modified: Read stores the flattening of the Job exactly as the cluster returned it |
| `KubernetesJob.Read` | kubernetes/resource_kubernetes_job.go:104-155 | issuing the calls and setting the fields step by step has exactly the effect `ReadSpec` describes |
| `KubernetesJob.CreateSpec` | kubernetes/resource_kubernetes_job.go:42-67 | a spec expansion failure returns before any call with the data unchanged; otherwise the first call is the create of the expanded Job in its namespace; a failed create returns its error with the id unchanged; after a successful create the id is that built from the returned object, followed by Read; the id changes only once expansion has succeeded |
| `KubernetesJob.Create` | kubernetes/resource_kubernetes_job.go:42-67 | the step-by-step create has exactly the effect `CreateSpec` describes |
| `KubernetesJob.UpdateOps` | kubernetes/resource_kubernetes_job.go:77-85 | the operations are the metadata operations followed by the spec operations; spec operations are added only when `spec` changed, and a spec-operation failure is returned |
| `KubernetesJob.UpdateSpec` | kubernetes/resource_kubernetes_job.go:69-102 | a malformed id, a spec-operation failure or a marshalling failure each returns with no call made and the data unchanged; any call made starts with the single patch carrying the marshalled operations; a failed patch returns its error before the id is reset and before Read runs; a successful patch sets the id from the returned object and then runs Read |
| `KubernetesJob.Update` | kubernetes/resource_kubernetes_job.go:69-102 | the step-by-step update has exactly the effect `UpdateSpec` describes |
| `KubernetesJob.ClassifyPoll` | kubernetes/resource_kubernetes_job.go:172-181 | a 404 status error ends the wait successfully; any other error ends it with that error, without retrying; a Job that can still be read means retry |
| `KubernetesJob.WaitSpec` | kubernetes/resource_kubernetes_job.go:171-185 | the wait keeps the calls made before it and adds at most one call per attempt |
| `KubernetesJob.WaitSpecOutcome` | kubernetes/resource_kubernetes_job.go:171-185 | the wait only issues Gets of the Job, and every poll before the last found it; it succeeds only when the last poll was a 404; it ends with an API error only when the last poll failed with that non-404 error; it reports "still exists" only after all attempts were used, and only when every one of those polls, the last included, found the Job |
| `KubernetesJob.PollTimesOut` | kubernetes/resource_kubernetes_job.go:171-185 | if the Job can be read at every poll, the wait fails with "still exists" after exactly the bounded number of polls |
| `KubernetesJob.PollGoneAt` | kubernetes/resource_kubernetes_job.go:171-185 | if the Job is readable at the first `j` polls and a 404 comes at poll `j`, within the bound, the wait succeeds after exactly `j + 1` Gets |
| `KubernetesJob.PollFirstReply` | kubernetes/resource_kubernetes_job.go:172-178 | a first poll that fails decides at once: success on 404, that error otherwise, after a single Get |
| `KubernetesJob.WaitUntilGone` | kubernetes/resource_kubernetes_job.go:171-185 | the polling loop has exactly the effect `WaitSpec` describes |
| `KubernetesJob.DeleteSpec` | kubernetes/resource_kubernetes_job.go:157-191 | a malformed id returns before any call; otherwise the first call is the delete; a failed delete returns its error with no polling and the id unchanged; otherwise the result and the calls are those of the wait; the id is cleared to "" exactly when the call succeeds and is unchanged whenever it fails |
| `KubernetesJob.DeleteConfirmed` | kubernetes/resource_kubernetes_job.go:166-190 | an accepted delete whose first poll sees 404 clears the id after exactly one delete and one get |
| `KubernetesJob.DeleteTimesOut` | kubernetes/resource_kubernetes_job.go:166-185 | an accepted delete whose Job stays readable fails with "still exists" after all attempts, keeping the id |
| `KubernetesJob.Delete` | kubernetes/resource_kubernetes_job.go:157-191 | the step-by-step delete and wait have exactly the effect `DeleteSpec` describes |
| `KubernetesJob.ExistsSpec` | kubernetes/resource_kubernetes_job.go:193-210 | a malformed id gives `(false, err)` with no call; otherwise one Get; the Job is reported present iff the Get did not fail with 404; there is no error iff the Get succeeded or failed with 404, and any other failure is returned |
| `KubernetesJob.Exists` | kubernetes/resource_kubernetes_job.go:193-210 | the step-by-step check has exactly the effect `ExistsSpec` describes |
| `KubernetesJob.Clientset.Get` | kubernetes/resource_kubernetes_job.go:113 | a Get returns the cluster's answer given the calls made before, and appends itself to the log |
| `KubernetesJob.Clientset.Create` | kubernetes/resource_kubernetes_job.go:58 | a create returns the cluster's answer and appends itself to the log |
| `KubernetesJob.Clientset.Patch` | kubernetes/resource_kubernetes_job.go:94 | a patch returns the cluster's answer and appends itself to the log |
| `KubernetesJob.Clientset.Delete` | kubernetes/resource_kubernetes_job.go:166 | a delete returns the cluster's answer and appends itself to the log |
| `KubernetesJob.ResourceData.SetId` | kubernetes/resource_kubernetes_job.go:64 | `d.SetId` changes the id and nothing else |
| `KubernetesJob.ResourceData.SetMetadata` | kubernetes/resource_kubernetes_job.go:139 | `d.Set("metadata", ...)` changes the metadata block and nothing else |
| `KubernetesJob.ResourceData.SetSpec` | kubernetes/resource_kubernetes_job.go:149 | `d.Set("spec", ...)` changes the spec block and nothing else |

## Left out

- Schema declaration, importer and logging (kubernetes/resource_kubernetes_job.go:17-40 and the `log.Printf` lines): they carry no decisions.
- The helpers defined in other files of the provider: we know only their results, so they are uninterpreted function fields, and facts about them (such as the id round trip) are not proved here.
- The JSON marshalling of patch operations, the cluster's HTTP client and the `JSONPatchType` argument: the cluster and `marshal` are abstract functions.
- Wall-clock timing of `resource.Retry` (which is not part of this model), including its backoff: one minute becomes a bound on the number of polls. The bound is at least 1, since `resource.Retry` polls once before its timeout can fire.
- `KubernetesJob.Read`: the errors of `d.Set` are not modelled. Setting a block always succeeds, because schema mismatches belong to the framework.
- `KubernetesJob.ReadSpec`: the label maps are deleted from in place in the Go code. The model computes new map values instead, so aliasing of the returned Job's maps is not captured. The Job is a fresh object, so nothing else can observe it.
- `KubernetesJob.ReadSpec`: the nil dereference of `job.Spec.Selector` at kubernetes/resource_kubernetes_job.go:132 panics in Go. The model reports it as the outcome `NilSelector`, with the data untouched. `StripServerLabels` itself requires the selector.
- The type assertions on `meta` and on `d.Get(...)` are not modelled; the framework guarantees their types.
- `Validation.StringInSlice`: `strings.ToLower` is modelled on ASCII letters only; Unicode case mapping is not modelled.
- `Validation.ValidateListUniqueStrings`: it requires a list of strings, because the Go code panics on any other value (an unchecked type assertion).
- `Validation.ValidateRegexp`: it requires a string, for the same reason.
- `Validation.CIDRNetwork`: `net.ParseCIDR`, `IPNet.String` and `Mask.Size` are a parse function passed in. It yields an error, or the canonical text and the prefix length.
- `Validation.ValidateJsonString`: `structure.NormalizeJsonString` is a function passed in that reports an optional cause.
- Go's `int` is 64 bits wide. The validators only compare integers, so unbounded integers behave the same on every Go `int`.
