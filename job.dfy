/** The Terraform resource `kubernetes_job`: the create, read, update, delete
    and exists callbacks that drive a Kubernetes Job through the cluster API.

    The schema framework's `ResourceData` is a class whose fields the
    callbacks update in place (`SetId`, `Set`).  The cluster API client is a
    class that records every call it is asked to make; what the cluster
    answers is given by a `Cluster` value, a set of functions from the calls
    made so far and the call's arguments to the reply.  The codec and patch
    helpers the callbacks use live in other files of the provider; here they
    are the function fields of a `Helpers` value, about which nothing is
    assumed.

    Each callback has a specification function on values (`ReadSpec`, ...)
    and a method, proved equal to it, that performs the calls step by step.
 */
module KubernetesJob {

  datatype Option<+T> = None | Some(value: T)

  /** A helper's result: a value, or the `error` it returns. */
  datatype Result<+T> = Ok(value: T) | Err(error: string)

  type Labels = map<string, string>

  /** A configuration block as the framework stores it: its flat attributes. */
  type Block = map<string, string>

  // ---------------------------------------------------------------------
  // The API objects

  /** `rest` stands for the selector's other fields (`MatchExpressions`),
      which only the spec codec reads. */
  datatype LabelSelector = LabelSelector(matchLabels: Labels, rest: string)

  /** `rest` stands for every other field of the object metadata (uid,
      resourceVersion, generation, ...), which only the metadata codec reads. */
  datatype ObjectMeta = ObjectMeta(namespace: string, name: string, labels: Labels, annotations: Labels, rest: string)

  /** `Selector` is a pointer in the Go type and may be nil; `rest` stands for
      every other field of the spec, which only the spec codec reads. */
  datatype JobSpec = JobSpec(selector: Option<LabelSelector>, rest: string)

  datatype Job = Job(meta: ObjectMeta, spec: JobSpec)

  /** An error from the API client; a `StatusError` carries an HTTP status. */
  datatype ApiError = StatusError(code: int, message: string) | OtherError(message: string)

  predicate IsNotFound(e: ApiError)
  {
    e.StatusError? && e.code == 404
  }

  /** The reply to a call that returns a Job. */
  datatype Reply = Found(job: Job) | Failed(err: ApiError)

  /** The calls the resource makes on `BatchV1().Jobs(namespace)`. */
  datatype Call =
    | CreateCall(namespace: string, job: Job)
    | GetCall(namespace: string, name: string)
    | PatchCall(namespace: string, name: string, doc: string)
    | DeleteCall(namespace: string, name: string)

  /** How the cluster answers: each reply may depend on every call made before. */
  datatype Cluster = Cluster(
    create: (seq<Call>, string, Job) -> Reply,
    get: (seq<Call>, string, string) -> Reply,
    patch: (seq<Call>, string, string, string) -> Reply,
    delete: (seq<Call>, string, string) -> Option<ApiError>)

  /** The Kubernetes clientset: it issues calls and keeps their log. */
  class Clientset {
    const cluster: Cluster
    var log: seq<Call>

    constructor (cluster: Cluster)
      ensures this.cluster == cluster && log == []
    {
      this.cluster := cluster;
      log := [];
    }

    method Create(namespace: string, job: Job) returns (r: Reply)
      modifies this
      ensures r == cluster.create(old(log), namespace, job)
      ensures log == old(log) + [CreateCall(namespace, job)]
    {
      r := cluster.create(log, namespace, job);
      log := log + [CreateCall(namespace, job)];
    }

    method Get(namespace: string, name: string) returns (r: Reply)
      modifies this
      ensures r == cluster.get(old(log), namespace, name)
      ensures log == old(log) + [GetCall(namespace, name)]
    {
      r := cluster.get(log, namespace, name);
      log := log + [GetCall(namespace, name)];
    }

    method Patch(namespace: string, name: string, doc: string) returns (r: Reply)
      modifies this
      ensures r == cluster.patch(old(log), namespace, name, doc)
      ensures log == old(log) + [PatchCall(namespace, name, doc)]
    {
      r := cluster.patch(log, namespace, name, doc);
      log := log + [PatchCall(namespace, name, doc)];
    }

    method Delete(namespace: string, name: string) returns (r: Option<ApiError>)
      modifies this
      ensures r == cluster.delete(old(log), namespace, name)
      ensures log == old(log) + [DeleteCall(namespace, name)]
    {
      r := cluster.delete(log, namespace, name);
      log := log + [DeleteCall(namespace, name)];
    }
  }

  // ---------------------------------------------------------------------
  // The framework's resource data

  /** The value of a `ResourceData`: the id, the `metadata` and `spec`
      blocks, and whether the framework reports a change of `spec`. */
  datatype Data = Data(id: string, metadata: Block, spec: Block, specChanged: bool)

  class ResourceData {
    var id: string
    var metadata: Block
    var spec: Block
    const specChanged: bool

    constructor (id: string, metadata: Block, spec: Block, specChanged: bool)
      ensures Value() == Data(id, metadata, spec, specChanged)
    {
      this.id := id;
      this.metadata := metadata;
      this.spec := spec;
      this.specChanged := specChanged;
    }

    function Value(): Data
      reads this
    {
      Data(id, metadata, spec, specChanged)
    }

    method SetId(v: string)
      modifies this
      ensures Value() == old(Value()).(id := v)
    {
      id := v;
    }

    method SetMetadata(b: Block)
      modifies this
      ensures Value() == old(Value()).(metadata := b)
    {
      metadata := b;
    }

    method SetSpec(b: Block)
      modifies this
      ensures Value() == old(Value()).(spec := b)
    {
      spec := b;
    }
  }

  /** `d.GetOk("spec.0.manual_selector")`: ok only for a value other than the
      zero value, so an unset flag and `false` both read as not ok. */
  predicate ManualSelectorSet(spec: Block)
  {
    "manual_selector" in spec && spec["manual_selector"] == "true"
  }

  // ---------------------------------------------------------------------
  // Helpers defined in other files of the provider

  datatype Helpers = Helpers(
    expandMetadata: Block -> ObjectMeta,
    expandJobSpec: Block -> Result<JobSpec>,
    flattenMetadata: ObjectMeta -> Block,
    flattenJobSpec: JobSpec -> Result<Block>,
    patchMetadata: (string, string, Data) -> seq<PatchOp>,
    patchJobSpec: (string, string, Data) -> Result<seq<PatchOp>>,
    marshal: seq<PatchOp> -> Result<string>,
    idParts: string -> Result<(string, string)>,
    buildId: ObjectMeta -> string)

  /** A JSON-patch operation as the patch builders produce it. */
  datatype PatchOp = PatchOp(op: string, path: string, value: string)

  /** The errors the callbacks return. */
  datatype Error =
    | HelperError(message: string)   // returned unchanged from a helper
    | MarshalError(cause: string)    // "Failed to marshal update operations: ..."
    | Api(err: ApiError)             // returned unchanged from the API client
    | StillExists(name: string)      // "Job ... still exists", left when the retry time runs out
    | NilSelector                    // the nil dereference of Spec.Selector: a Go panic

  /** What a callback leaves behind: its error, the resource data, the call log. */
  datatype Step = Step(err: Option<Error>, data: Data, log: seq<Call>)

  // ---------------------------------------------------------------------
  // Read

  const ControllerUid := "controller-uid"
  const JobName := "job-name"

  /** Removes the labels the Job controller adds: `controller-uid` and
      `job-name` from the object's labels, `controller-uid` from the selector's
      match labels.  The Go code dereferences the selector without a nil check,
      so it must be present. */
  function StripServerLabels(job: Job): (r: Job)
    requires job.spec.selector.Some?
    ensures forall key :: key in r.meta.labels <==> key in job.meta.labels && key != ControllerUid && key != JobName
    ensures forall key :: key in r.meta.labels ==> r.meta.labels[key] == job.meta.labels[key]
    ensures r.spec.selector.Some?
    ensures var before, after := job.spec.selector.value.matchLabels, r.spec.selector.value.matchLabels;
      && (forall key :: key in after <==> key in before && key != ControllerUid)
      && (forall key :: key in after ==> after[key] == before[key])
    ensures r.spec.selector.value.(matchLabels := job.spec.selector.value.matchLabels) == job.spec.selector.value
    ensures r.meta.(labels := job.meta.labels) == job.meta
    ensures r.spec.(selector := job.spec.selector) == job.spec
  {
    var labels := job.meta.labels;
    var labels := if ControllerUid in labels then labels - {ControllerUid} else labels;
    var labels := if JobName in labels then labels - {JobName} else labels;
    var matchLabels := job.spec.selector.value.matchLabels;
    var matchLabels := if ControllerUid in matchLabels then matchLabels - {ControllerUid} else matchLabels;
    Job(job.meta.(labels := labels), job.spec.(selector := Some(job.spec.selector.value.(matchLabels := matchLabels))))
  }

  /** `job-name` is never removed from the selector. */
  lemma StripServerLabelsKeepsSelectorJobName(job: Job)
    requires job.spec.selector.Some? && JobName in job.spec.selector.value.matchLabels
    ensures var after := StripServerLabels(job).spec.selector.value.matchLabels;
      JobName in after && after[JobName] == job.spec.selector.value.matchLabels[JobName]
  {
  }

  /** Reads the Job named by the id and stores it into the resource data. */
  function ReadSpec(h: Helpers, c: Cluster, d: Data, log: seq<Call>): (r: Step)
    ensures r.data.id == d.id && r.data.specChanged == d.specChanged
    ensures h.idParts(d.id).Err? ==> r == Step(Some(HelperError(h.idParts(d.id).error)), d, log)
    ensures h.idParts(d.id).Ok? ==>
      var (namespace, name) := h.idParts(d.id).value;
      var reply := c.get(log, namespace, name);
      && r.log == log + [GetCall(namespace, name)]
      && (reply.Failed? ==> r.err == Some(Api(reply.err)) && r.data == d)
      && (reply.Found? && !ManualSelectorSet(d.spec) && reply.job.spec.selector.None? ==>
            r == Step(Some(NilSelector), d, log + [GetCall(namespace, name)]))
      && (r.err.None? ==>
            && reply.Found?
            && (ManualSelectorSet(d.spec) || reply.job.spec.selector.Some?)
            && r.data.metadata == h.flattenMetadata(
                 if ManualSelectorSet(d.spec) then reply.job.meta else StripServerLabels(reply.job).meta))
      && (reply.Found? && (ManualSelectorSet(d.spec) || reply.job.spec.selector.Some?) ==>
            var job := if ManualSelectorSet(d.spec) then reply.job else StripServerLabels(reply.job);
            // the metadata block is stored before the spec is flattened, so it
            // stays stored when flattening the spec fails
            && r.data.metadata == h.flattenMetadata(job.meta)
            && match h.flattenJobSpec(job.spec)
               case Err(e) => r.err == Some(HelperError(e)) && r.data.spec == d.spec
               case Ok(spec) => r.err.None? && r.data.spec == spec)
  {
    match h.idParts(d.id)
    case Err(e) => Step(Some(HelperError(e)), d, log)
    case Ok((namespace, name)) =>
      var log' := log + [GetCall(namespace, name)];
      match c.get(log, namespace, name)
      case Failed(e) => Step(Some(Api(e)), d, log')
      case Found(job) =>
        if !ManualSelectorSet(d.spec) && job.spec.selector.None? then Step(Some(NilSelector), d, log')
        else
          var job := if ManualSelectorSet(d.spec) then job else StripServerLabels(job);
          var d' := d.(metadata := h.flattenMetadata(job.meta));
          match h.flattenJobSpec(job.spec)
          case Err(e) => Step(Some(HelperError(e)), d', log')
          case Ok(spec) => Step(None, d'.(spec := spec), log')
  }

  /** With `manual_selector` set, the Job is stored exactly as the cluster returned it. */
  lemma ReadManualSelectorKeepsLabels(h: Helpers, c: Cluster, d: Data, log: seq<Call>)
    requires ManualSelectorSet(d.spec) && h.idParts(d.id).Ok?
    requires c.get(log, h.idParts(d.id).value.0, h.idParts(d.id).value.1).Found?
    ensures var job := c.get(log, h.idParts(d.id).value.0, h.idParts(d.id).value.1).job;
      && ReadSpec(h, c, d, log).data.metadata == h.flattenMetadata(job.meta)
      && (h.flattenJobSpec(job.spec).Ok? ==>
            ReadSpec(h, c, d, log) == Step(None, d.(metadata := h.flattenMetadata(job.meta), spec := h.flattenJobSpec(job.spec).value), log + [GetCall(h.idParts(d.id).value.0, h.idParts(d.id).value.1)]))
  {
  }

  method Read(d: ResourceData, conn: Clientset, h: Helpers) returns (err: Option<Error>)
    modifies d, conn
    ensures var s := ReadSpec(h, conn.cluster, old(d.Value()), old(conn.log));
      err == s.err && d.Value() == s.data && conn.log == s.log
  {
    var parts := h.idParts(d.id);
    if parts.Err? {
      return Some(HelperError(parts.error));
    }
    var (namespace, name) := parts.value;
    var reply := conn.Get(namespace, name);
    if reply.Failed? {
      return Some(Api(reply.err));
    }
    var job := reply.job;
    if !ManualSelectorSet(d.spec) {
      if job.spec.selector.None? {
        return Some(NilSelector);
      }
      job := StripServerLabels(job);
    }
    d.SetMetadata(h.flattenMetadata(job.meta));
    var spec := h.flattenJobSpec(job.spec);
    if spec.Err? {
      return Some(HelperError(spec.error));
    }
    d.SetSpec(spec.value);
    return None;
  }

  // ---------------------------------------------------------------------
  // Create

  function CreateSpec(h: Helpers, c: Cluster, d: Data, log: seq<Call>): (r: Step)
    ensures h.expandJobSpec(d.spec).Err? ==> r == Step(Some(HelperError(h.expandJobSpec(d.spec).error)), d, log)
    ensures h.expandJobSpec(d.spec).Ok? ==>
      var meta := h.expandMetadata(d.metadata);
      var job := Job(meta, h.expandJobSpec(d.spec).value);
      var reply := c.create(log, meta.namespace, job);
      && |r.log| > |log| && r.log[..|log| + 1] == log + [CreateCall(meta.namespace, job)]
      && (reply.Failed? ==> r == Step(Some(Api(reply.err)), d, log + [CreateCall(meta.namespace, job)]))
      && (reply.Found? ==> r == ReadSpec(h, c, d.(id := h.buildId(reply.job.meta)), log + [CreateCall(meta.namespace, job)]))
      && (reply.Found? ==> r.data.id == h.buildId(reply.job.meta))
    ensures r.data.id != d.id ==> h.expandJobSpec(d.spec).Ok?
  {
    var meta := h.expandMetadata(d.metadata);
    match h.expandJobSpec(d.spec)
    case Err(e) => Step(Some(HelperError(e)), d, log)
    case Ok(spec) =>
      var job := Job(meta, spec);
      var log' := log + [CreateCall(meta.namespace, job)];
      match c.create(log, meta.namespace, job)
      case Failed(e) => Step(Some(Api(e)), d, log')
      case Found(out) => ReadSpec(h, c, d.(id := h.buildId(out.meta)), log')
  }

  method Create(d: ResourceData, conn: Clientset, h: Helpers) returns (err: Option<Error>)
    modifies d, conn
    ensures var s := CreateSpec(h, conn.cluster, old(d.Value()), old(conn.log));
      err == s.err && d.Value() == s.data && conn.log == s.log
  {
    var metadata := h.expandMetadata(d.metadata);
    var spec := h.expandJobSpec(d.spec);
    if spec.Err? {
      return Some(HelperError(spec.error));
    }
    var job := Job(metadata, spec.value);
    var out := conn.Create(metadata.namespace, job);
    if out.Failed? {
      return Some(Api(out.err));
    }
    d.SetId(h.buildId(out.job.meta));
    err := Read(d, conn, h);
  }

  // ---------------------------------------------------------------------
  // Update

  const MetadataPrefix := "metadata.0."
  const MetadataPath := "/metadata/"
  const SpecPath := "/spec"
  const SpecPrefix := "spec.0."

  /** The patch operations of an update: those for `metadata`, always, then
      those for `spec` when the framework reports that `spec` changed. */
  function UpdateOps(h: Helpers, d: Data): (r: Result<seq<PatchOp>>)
    ensures r.Ok? ==> h.patchMetadata(MetadataPrefix, MetadataPath, d) <= r.value
    ensures !d.specChanged ==> r == Ok(h.patchMetadata(MetadataPrefix, MetadataPath, d))
    ensures d.specChanged ==> match h.patchJobSpec(SpecPath, SpecPrefix, d)
      case Err(e) => r == Err(e)
      case Ok(specOps) => r.Ok? && r.value[|h.patchMetadata(MetadataPrefix, MetadataPath, d)|..] == specOps
  {
    var ops := h.patchMetadata(MetadataPrefix, MetadataPath, d);
    if !d.specChanged then Ok(ops)
    else
      match h.patchJobSpec(SpecPath, SpecPrefix, d)
      case Err(e) => Err(e)
      case Ok(specOps) => Ok(ops + specOps)
  }

  function UpdateSpec(h: Helpers, c: Cluster, d: Data, log: seq<Call>): (r: Step)
    ensures h.idParts(d.id).Err? ==> r == Step(Some(HelperError(h.idParts(d.id).error)), d, log)
    ensures h.idParts(d.id).Ok? && UpdateOps(h, d).Err? ==> r == Step(Some(HelperError(UpdateOps(h, d).error)), d, log)
    ensures h.idParts(d.id).Ok? && UpdateOps(h, d).Ok? && h.marshal(UpdateOps(h, d).value).Err? ==>
      r == Step(Some(MarshalError(h.marshal(UpdateOps(h, d).value).error)), d, log)
    ensures r.log != log ==>
      && h.idParts(d.id).Ok? && UpdateOps(h, d).Ok? && h.marshal(UpdateOps(h, d).value).Ok?
      && |r.log| > |log| && r.log[..|log| + 1] == log + [PatchCall(h.idParts(d.id).value.0, h.idParts(d.id).value.1, h.marshal(UpdateOps(h, d).value).value)]
    ensures h.idParts(d.id).Ok? && UpdateOps(h, d).Ok? && h.marshal(UpdateOps(h, d).value).Ok? ==>
      var (namespace, name) := h.idParts(d.id).value;
      var doc := h.marshal(UpdateOps(h, d).value).value;
      var log' := log + [PatchCall(namespace, name, doc)];
      match c.patch(log, namespace, name, doc)
      case Failed(e) => r == Step(Some(Api(e)), d, log')
      case Found(out) => r == ReadSpec(h, c, d.(id := h.buildId(out.meta)), log') && r.data.id == h.buildId(out.meta)
  {
    match h.idParts(d.id)
    case Err(e) => Step(Some(HelperError(e)), d, log)
    case Ok((namespace, name)) =>
      match UpdateOps(h, d)
      case Err(e) => Step(Some(HelperError(e)), d, log)
      case Ok(ops) =>
        match h.marshal(ops)
        case Err(e) => Step(Some(MarshalError(e)), d, log)
        case Ok(doc) =>
          var log' := log + [PatchCall(namespace, name, doc)];
          match c.patch(log, namespace, name, doc)
          case Failed(e) => Step(Some(Api(e)), d, log')
          case Found(out) => ReadSpec(h, c, d.(id := h.buildId(out.meta)), log')
  }

  method Update(d: ResourceData, conn: Clientset, h: Helpers) returns (err: Option<Error>)
    modifies d, conn
    ensures var s := UpdateSpec(h, conn.cluster, old(d.Value()), old(conn.log));
      err == s.err && d.Value() == s.data && conn.log == s.log
  {
    var parts := h.idParts(d.id);
    if parts.Err? {
      return Some(HelperError(parts.error));
    }
    var (namespace, name) := parts.value;
    var ops := h.patchMetadata(MetadataPrefix, MetadataPath, d.Value());
    if d.specChanged {
      var specOps := h.patchJobSpec(SpecPath, SpecPrefix, d.Value());
      if specOps.Err? {
        return Some(HelperError(specOps.error));
      }
      ops := ops + specOps.value;
    }
    var data := h.marshal(ops);
    if data.Err? {
      return Some(MarshalError(data.error));
    }
    var out := conn.Patch(namespace, name, data.value);
    if out.Failed? {
      return Some(Api(out.err));
    }
    d.SetId(h.buildId(out.job.meta));
    err := Read(d, conn, h);
  }

  // ---------------------------------------------------------------------
  // Delete and its confirmation loop

  /** What one poll of the retry callback decides. */
  datatype Verdict = Gone | Fatal(err: ApiError) | Pending

  /** A 404 ends the wait successfully, any other error ends it with that
      error, and a Job that can still be read means "retry". */
  function ClassifyPoll(reply: Reply): (p: Verdict)
    ensures p == Gone <==> reply.Failed? && IsNotFound(reply.err)
    ensures p.Fatal? <==> reply.Failed? && !IsNotFound(reply.err)
    ensures p.Fatal? ==> p.err == reply.err
    ensures p == Pending <==> reply.Found?
  {
    match reply
    case Failed(e) => if IsNotFound(e) then Gone else Fatal(e)
    case Found(_) => Pending
  }

  datatype PollEnd = PollEnd(err: Option<Error>, log: seq<Call>)

  /** `n` polls of the Job. */
  function Gets(namespace: string, name: string, n: nat): (calls: seq<Call>)
    ensures |calls| == n && forall j :: 0 <= j < n ==> calls[j] == GetCall(namespace, name)
  {
    seq(n, _ => GetCall(namespace, name))
  }

  /** The confirmation loop with at most `attempts` polls standing in for its
      one-minute timeout.  It stops at the first poll that is not "retry";
      when the attempts run out it reports the last retryable error. */
  function WaitSpec(c: Cluster, log: seq<Call>, namespace: string, name: string, attempts: nat): (r: PollEnd)
    decreases attempts
    ensures |log| <= |r.log| <= |log| + attempts && r.log[..|log|] == log
  {
    if attempts == 0 then PollEnd(Some(StillExists(name)), log)
    else
      var log' := log + [GetCall(namespace, name)];
      match ClassifyPoll(c.get(log, namespace, name))
      case Gone => PollEnd(None, log')
      case Fatal(e) => PollEnd(Some(Api(e)), log')
      case Pending =>
        var r := WaitSpec(c, log', namespace, name, attempts - 1);
        assert r.log[..|log'|] == log';
        r
  }

  /** The wait only polls the Job, and every poll but the last found it.  It
      succeeds only when its last poll saw a 404, fails with an API error
      only when its last poll failed with that (non-404) error, and reports
      "still exists" only once every attempt was used. */
  lemma {:induction false} WaitSpecOutcome(c: Cluster, log: seq<Call>, namespace: string, name: string, attempts: nat)
    decreases attempts
    ensures var r := WaitSpec(c, log, namespace, name, attempts);
      && (forall j :: |log| <= j < |r.log| ==> r.log[j] == GetCall(namespace, name))
      && (forall j :: |log| <= j < |r.log| - 1 ==> c.get(r.log[..j], namespace, name).Found?)
      && (r.err.None? ==> |r.log| > |log| && ClassifyPoll(c.get(r.log[..|r.log| - 1], namespace, name)) == Gone)
      && (r.err.Some? && r.err.value.Api? ==>
            |r.log| > |log| && ClassifyPoll(c.get(r.log[..|r.log| - 1], namespace, name)) == Fatal(r.err.value.err))
      && (r.err.Some? ==> r.err.value.Api? || (r.err.value == StillExists(name) && r.log == log + Gets(namespace, name, attempts)))
      && (r.err == Some(StillExists(name)) ==>
            forall j :: |log| <= j < |r.log| ==> c.get(r.log[..j], namespace, name).Found?)
  {
    if attempts > 0 && ClassifyPoll(c.get(log, namespace, name)) == Pending {
      var log' := log + [GetCall(namespace, name)];
      var r := WaitSpec(c, log', namespace, name, attempts - 1);
      assert WaitSpec(c, log, namespace, name, attempts) == r;
      WaitSpecOutcome(c, log', namespace, name, attempts - 1);
      assert r.log[..|log'|] == log';
      forall j | |log| <= j < |r.log| - 1 || (r.err == Some(StillExists(name)) && |log| <= j < |r.log|)
        ensures c.get(r.log[..j], namespace, name).Found?
      {
        if j == |log| {
          assert r.log[..j] == log;
        }
      }
      if r.err.Some? && r.err.value == StillExists(name) && !r.err.value.Api? {
        assert log' + Gets(namespace, name, attempts - 1) == log + Gets(namespace, name, attempts);
      }
    }
  }

  /** If the Job can still be read at every poll, the loop fails with
      "still exists" after exactly `attempts` polls. */
  lemma {:induction false} PollTimesOut(c: Cluster, log: seq<Call>, namespace: string, name: string, attempts: nat)
    requires forall j :: 0 <= j < attempts ==> c.get(log + Gets(namespace, name, j), namespace, name).Found?
    ensures WaitSpec(c, log, namespace, name, attempts) == PollEnd(Some(StillExists(name)), log + Gets(namespace, name, attempts))
    decreases attempts
  {
    if attempts > 0 {
      assert log + Gets(namespace, name, 0) == log;
      var log' := log + [GetCall(namespace, name)];
      forall j | 0 <= j < attempts - 1
        ensures c.get(log' + Gets(namespace, name, j), namespace, name).Found?
      {
        assert log' + Gets(namespace, name, j) == log + Gets(namespace, name, j + 1);
      }
      PollTimesOut(c, log', namespace, name, attempts - 1);
      assert log' + Gets(namespace, name, attempts - 1) == log + Gets(namespace, name, attempts);
    }
  }

  /** A Job readable at the first `j` polls and gone (404) at poll `j`, within
      the bound, ends the wait successfully after exactly `j + 1` polls. */
  lemma {:induction false} PollGoneAt(c: Cluster, log: seq<Call>, namespace: string, name: string, attempts: nat, j: nat)
    requires j < attempts
    requires forall i :: 0 <= i < j ==> c.get(log + Gets(namespace, name, i), namespace, name).Found?
    requires var reply := c.get(log + Gets(namespace, name, j), namespace, name);
      reply.Failed? && IsNotFound(reply.err)
    ensures WaitSpec(c, log, namespace, name, attempts) == PollEnd(None, log + Gets(namespace, name, j + 1))
    decreases j
  {
    assert log + Gets(namespace, name, 0) == log;
    var log' := log + [GetCall(namespace, name)];
    if j > 0 {
      forall i | 0 <= i < j - 1
        ensures c.get(log' + Gets(namespace, name, i), namespace, name).Found?
      {
        assert log' + Gets(namespace, name, i) == log + Gets(namespace, name, i + 1);
      }
      assert log' + Gets(namespace, name, j - 1) == log + Gets(namespace, name, j);
      PollGoneAt(c, log', namespace, name, attempts - 1, j - 1);
      assert log' + Gets(namespace, name, j) == log + Gets(namespace, name, j + 1);
    } else {
      assert log' == log + Gets(namespace, name, 1);
    }
  }

  /** The first poll decides at once on a 404 or another error. */
  lemma PollFirstReply(c: Cluster, log: seq<Call>, namespace: string, name: string, attempts: nat)
    requires attempts > 0 && c.get(log, namespace, name).Failed?
    ensures var e := c.get(log, namespace, name).err;
      WaitSpec(c, log, namespace, name, attempts)
      == PollEnd(if IsNotFound(e) then None else Some(Api(e)), log + [GetCall(namespace, name)])
  {
  }

  /** `resource.Retry` around the callback of the Go code, with an attempt bound. */
  method WaitUntilGone(conn: Clientset, namespace: string, name: string, attempts: nat) returns (err: Option<Error>)
    requires attempts > 0
    modifies conn
    ensures var p := WaitSpec(conn.cluster, old(conn.log), namespace, name, attempts);
      err == p.err && conn.log == p.log
  {
    var attempt := 0;
    while attempt < attempts
      invariant 0 <= attempt <= attempts
      invariant WaitSpec(conn.cluster, old(conn.log), namespace, name, attempts)
                == WaitSpec(conn.cluster, conn.log, namespace, name, attempts - attempt)
    {
      var reply := conn.Get(namespace, name);
      match ClassifyPoll(reply)
      case Gone => return None;
      case Fatal(e) => return Some(Api(e));
      case Pending =>
      attempt := attempt + 1;
    }
    return Some(StillExists(name));
  }

  function DeleteSpec(h: Helpers, c: Cluster, d: Data, log: seq<Call>, attempts: nat): (r: Step)
    requires attempts > 0
    ensures h.idParts(d.id).Err? ==> r == Step(Some(HelperError(h.idParts(d.id).error)), d, log)
    ensures h.idParts(d.id).Ok? ==>
      var (namespace, name) := h.idParts(d.id).value;
      && |r.log| > |log| && r.log[..|log| + 1] == log + [DeleteCall(namespace, name)]
      && (c.delete(log, namespace, name).Some? ==>
            r == Step(Some(Api(c.delete(log, namespace, name).value)), d, log + [DeleteCall(namespace, name)]))
      && (c.delete(log, namespace, name).None? ==>
            var p := WaitSpec(c, log + [DeleteCall(namespace, name)], namespace, name, attempts);
            r.log == p.log && r.err == p.err)
    ensures r.err.None? ==> r.data == d.(id := "")
    ensures r.err.Some? ==> r.data == d
  {
    match h.idParts(d.id)
    case Err(e) => Step(Some(HelperError(e)), d, log)
    case Ok((namespace, name)) =>
      var log' := log + [DeleteCall(namespace, name)];
      match c.delete(log, namespace, name)
      case Some(e) => Step(Some(Api(e)), d, log')
      case None =>
        var p := WaitSpec(c, log', namespace, name, attempts);
        assert p.log[..|log| + 1] == log';
        if p.err.None? then Step(None, d.(id := ""), p.log) else Step(p.err, d, p.log)
  }

  /** A delete that the cluster accepts and whose first poll sees a 404
      clears the id after exactly one delete and one get. */
  lemma DeleteConfirmed(h: Helpers, c: Cluster, d: Data, log: seq<Call>, attempts: nat)
    requires attempts > 0 && h.idParts(d.id).Ok?
    requires var (namespace, name) := h.idParts(d.id).value;
      && c.delete(log, namespace, name).None?
      && var reply := c.get(log + [DeleteCall(namespace, name)], namespace, name);
         reply.Failed? && IsNotFound(reply.err)
    ensures var (namespace, name) := h.idParts(d.id).value;
      DeleteSpec(h, c, d, log, attempts)
      == Step(None, d.(id := ""), log + [DeleteCall(namespace, name), GetCall(namespace, name)])
  {
    var (namespace, name) := h.idParts(d.id).value;
    PollFirstReply(c, log + [DeleteCall(namespace, name)], namespace, name, attempts);
    assert log + [DeleteCall(namespace, name)] + [GetCall(namespace, name)]
        == log + [DeleteCall(namespace, name), GetCall(namespace, name)];
  }

  /** A Job that stays readable for every poll makes Delete fail with
      "still exists" after all attempts, keeping the id. */
  lemma DeleteTimesOut(h: Helpers, c: Cluster, d: Data, log: seq<Call>, attempts: nat)
    requires attempts > 0 && h.idParts(d.id).Ok?
    requires var (namespace, name) := h.idParts(d.id).value;
      && c.delete(log, namespace, name).None?
      && forall j :: 0 <= j < attempts ==>
           c.get(log + [DeleteCall(namespace, name)] + Gets(namespace, name, j), namespace, name).Found?
    ensures var (namespace, name) := h.idParts(d.id).value;
      DeleteSpec(h, c, d, log, attempts)
      == Step(Some(StillExists(name)), d, log + [DeleteCall(namespace, name)] + Gets(namespace, name, attempts))
  {
    var (namespace, name) := h.idParts(d.id).value;
    PollTimesOut(c, log + [DeleteCall(namespace, name)], namespace, name, attempts);
  }

  method Delete(d: ResourceData, conn: Clientset, h: Helpers, attempts: nat) returns (err: Option<Error>)
    requires attempts > 0
    modifies d, conn
    ensures var s := DeleteSpec(h, conn.cluster, old(d.Value()), old(conn.log), attempts);
      err == s.err && d.Value() == s.data && conn.log == s.log
  {
    var parts := h.idParts(d.id);
    if parts.Err? {
      return Some(HelperError(parts.error));
    }
    var (namespace, name) := parts.value;
    var failure := conn.Delete(namespace, name);
    if failure.Some? {
      return Some(Api(failure.value));
    }
    err := WaitUntilGone(conn, namespace, name, attempts);
    if err.Some? {
      return err;
    }
    d.SetId("");
  }

  // ---------------------------------------------------------------------
  // Exists

  datatype ExistsEnd = ExistsEnd(present: bool, err: Option<Error>, log: seq<Call>)

  /** A malformed id gives `(false, err)`, a 404 `(false, nil)`, another error
      `(true, err)` and a Job that can be read `(true, nil)`. */
  function ExistsSpec(h: Helpers, c: Cluster, d: Data, log: seq<Call>): (r: ExistsEnd)
    ensures h.idParts(d.id).Err? ==> r == ExistsEnd(false, Some(HelperError(h.idParts(d.id).error)), log)
    ensures h.idParts(d.id).Ok? ==>
      var (namespace, name) := h.idParts(d.id).value;
      var reply := c.get(log, namespace, name);
      && r.log == log + [GetCall(namespace, name)]
      && (r.present <==> !(reply.Failed? && IsNotFound(reply.err)))
      && (r.err.None? <==> reply.Found? || IsNotFound(reply.err))
      && (r.err.Some? ==> r.err == Some(Api(reply.err)))
  {
    match h.idParts(d.id)
    case Err(e) => ExistsEnd(false, Some(HelperError(e)), log)
    case Ok((namespace, name)) =>
      var log' := log + [GetCall(namespace, name)];
      match c.get(log, namespace, name)
      case Failed(e) => if IsNotFound(e) then ExistsEnd(false, None, log') else ExistsEnd(true, Some(Api(e)), log')
      case Found(_) => ExistsEnd(true, None, log')
  }

  method Exists(d: ResourceData, conn: Clientset, h: Helpers) returns (present: bool, err: Option<Error>)
    modifies conn
    ensures var s := ExistsSpec(h, conn.cluster, d.Value(), old(conn.log));
      present == s.present && err == s.err && conn.log == s.log
  {
    var parts := h.idParts(d.id);
    if parts.Err? {
      return false, Some(HelperError(parts.error));
    }
    var (namespace, name) := parts.value;
    var reply := conn.Get(namespace, name);
    if reply.Failed? {
      if IsNotFound(reply.err) {
        return false, None;
      }
      return true, Some(Api(reply.err));
    }
    return true, None;
  }
}
