/** Terraform's schema validation helpers (package helper/validation).

    Every validator receives the dynamically typed value of one configuration
    field together with the field's key, and answers with a list of warnings
    and a list of errors.  Errors are kept as structured records (the key and
    an error kind carrying the values the message would print) instead of
    formatted text.
 */
module Validation {

  /** Go strings are byte strings: `len` counts bytes. */
  newtype byte = x: int | 0 <= x < 256

  type Str = seq<byte>

  /** The bytes of a string literal whose characters are all below 256. */
  function Bytes(s: string): Str
    requires forall i :: 0 <= i < |s| ==> s[i] as int < 256
  {
    seq(|s|, i requires 0 <= i < |s| => s[i] as int as byte)
  }

  /** The `interface{}` value handed to a validator.  `IntV` is a Go `int`;
      every other dynamic type (int64, float, map, nil, ...) is `OtherV`. */
  datatype Value =
    | IntV(i: int)
    | StrV(s: Str)
    | ListV(items: seq<Value>)
    | OtherV

  /** What an error reports; the payload is what the Go message prints. */
  datatype Kind =
    | NotInt                                            // "expected type of %s to be int"
    | NotString                                         // "expected type of %s to be string"
    | IntNotInRange(min: int, max: int, value: int)
    | IntBelow(min: int, value: int)
    | IntAbove(max: int, value: int)
    | NotOneOf(valid: seq<Str>, got: Str)
    | LengthNotInRange(min: int, max: int, got: Str)   // the message prints the string itself
    | InvalidCidr(got: Str, cause: Str)
    | NotNetworkCidr(expected: Str, got: Str)
    | PrefixNotInRange(min: int, max: int, bits: int)
    | InvalidJson(cause: Str)
    | InvalidRegexp(cause: Str)
    | Duplicate(entry: Str)

  datatype Error = Error(key: Str, kind: Kind)

  /** The `(warnings, errors)` pair every validator returns. */
  datatype Outcome = Outcome(warnings: seq<Str>, errors: seq<Error>)

  // ---------------------------------------------------------------------
  // Integer bounds

  /** Inclusive range check on a Go `int`. */
  function IntBetween(min: int, max: int, i: Value, k: Str): (r: Outcome)
    ensures r.warnings == []
    ensures !i.IntV? ==> r.errors == [Error(k, NotInt)]
    ensures i.IntV? ==> (r.errors == [] <==> min <= i.i <= max)
    ensures i.IntV? && r.errors != [] ==> r.errors == [Error(k, IntNotInRange(min, max, i.i))]
  {
    if !i.IntV? then Outcome([], [Error(k, NotInt)])
    else if i.i < min || i.i > max then Outcome([], [Error(k, IntNotInRange(min, max, i.i))])
    else Outcome([], [])
  }

  /** Inclusive lower bound on a Go `int`. */
  function IntAtLeast(min: int, i: Value, k: Str): (r: Outcome)
    ensures r.warnings == []
    ensures !i.IntV? ==> r.errors == [Error(k, NotInt)]
    ensures i.IntV? ==> (r.errors == [] <==> min <= i.i)
    ensures i.IntV? && r.errors != [] ==> r.errors == [Error(k, IntBelow(min, i.i))]
  {
    if !i.IntV? then Outcome([], [Error(k, NotInt)])
    else if i.i < min then Outcome([], [Error(k, IntBelow(min, i.i))])
    else Outcome([], [])
  }

  /** Inclusive upper bound on a Go `int`. */
  function IntAtMost(max: int, i: Value, k: Str): (r: Outcome)
    ensures r.warnings == []
    ensures !i.IntV? ==> r.errors == [Error(k, NotInt)]
    ensures i.IntV? ==> (r.errors == [] <==> i.i <= max)
    ensures i.IntV? && r.errors != [] ==> r.errors == [Error(k, IntAbove(max, i.i))]
  {
    if !i.IntV? then Outcome([], [Error(k, NotInt)])
    else if i.i > max then Outcome([], [Error(k, IntAbove(max, i.i))])
    else Outcome([], [])
  }

  /** `IntBetween(1, 10)` accepts both bounds and rejects their neighbours. */
  lemma IntBetweenOneToTen(k: Str)
    ensures IntBetween(1, 10, IntV(1), k).errors == []
    ensures IntBetween(1, 10, IntV(10), k).errors == []
    ensures IntBetween(1, 10, IntV(0), k).errors == [Error(k, IntNotInRange(1, 10, 0))]
    ensures IntBetween(1, 10, IntV(11), k).errors == [Error(k, IntNotInRange(1, 10, 11))]
    ensures IntBetween(1, 10, StrV(Bytes("5")), k).errors == [Error(k, NotInt)]
  {
  }

  /** `IntBetween(min, max)` accepts exactly what both one-sided checks accept. */
  lemma IntBetweenIsBothBounds(min: int, max: int, i: Value, k: Str)
    ensures (IntBetween(min, max, i, k).errors == [])
        <==> (IntAtLeast(min, i, k).errors == [] && IntAtMost(max, i, k).errors == [])
  {
  }

  // ---------------------------------------------------------------------
  // Membership

  /** `strings.ToLower`, restricted to ASCII letters. */
  function LowerByte(b: byte): byte
  {
    if 65 <= b <= 90 then b + 32 else b
  }

  function ToLower(s: Str): Str
  {
    seq(|s|, j requires 0 <= j < |s| => LowerByte(s[j]))
  }

  /** The comparison of one loop iteration of `StringInSlice`. */
  predicate Matches(v: Str, str: Str, ignoreCase: bool)
  {
    v == str || (ignoreCase && ToLower(v) == ToLower(str))
  }

  /** Some element of `valid` matches `v`. */
  predicate InSlice(valid: seq<Str>, ignoreCase: bool, v: Str)
  {
    exists j :: 0 <= j < |valid| && Matches(v, valid[j], ignoreCase)
  }

  /** Scans `valid` and returns at the first match; otherwise one error. */
  method StringInSlice(valid: seq<Str>, ignoreCase: bool, i: Value, k: Str) returns (r: Outcome)
    ensures r.warnings == []
    ensures !i.StrV? ==> r.errors == [Error(k, NotString)]
    ensures i.StrV? ==> (r.errors == [] <==> InSlice(valid, ignoreCase, i.s))
    ensures i.StrV? && r.errors != [] ==> r.errors == [Error(k, NotOneOf(valid, i.s))]
  {
    if !i.StrV? {
      return Outcome([], [Error(k, NotString)]);
    }
    var v := i.s;
    for j := 0 to |valid|
      invariant forall j' :: 0 <= j' < j ==> !Matches(v, valid[j'], ignoreCase)
    {
      if v == valid[j] || (ignoreCase && ToLower(v) == ToLower(valid[j])) {
        return Outcome([], []);
      }
    }
    return Outcome([], [Error(k, NotOneOf(valid, v))]);
  }

  /** Without `ignoreCase` only an exact element is accepted. */
  lemma InSliceExact(valid: seq<Str>, v: Str)
    ensures InSlice(valid, false, v) <==> v in valid
  {
    if v in valid {
      var j :| 0 <= j < |valid| && valid[j] == v;
      assert Matches(v, valid[j], false);
    }
  }

  /** With `ignoreCase` an element is accepted when both lower-case to the same
      string, and every exactly matching element is still accepted. */
  lemma InSliceIgnoringCase(valid: seq<Str>, v: Str)
    ensures InSlice(valid, true, v) <==> exists j :: 0 <= j < |valid| && ToLower(valid[j]) == ToLower(v)
    ensures InSlice(valid, false, v) ==> InSlice(valid, true, v)
  {
  }

  /** A concrete case: "Foo" is accepted as "fOO" only when ignoring case. */
  lemma InSliceExample()
    ensures InSlice([Bytes("Foo")], true, Bytes("fOO"))
    ensures !InSlice([Bytes("Foo")], false, Bytes("fOO"))
  {
    var foo, fOO := Bytes("Foo"), Bytes("fOO");
    assert ToLower(foo) == ToLower(fOO);
    assert Matches(fOO, [foo][0], true);
    assert foo[1] != fOO[1];
  }

  // ---------------------------------------------------------------------
  // String length

  /** Inclusive bounds on the byte length of a string. */
  function StringLenBetween(min: int, max: int, i: Value, k: Str): (r: Outcome)
    ensures r.warnings == []
    ensures !i.StrV? ==> r.errors == [Error(k, NotString)]
    ensures i.StrV? ==> (r.errors == [] <==> min <= |i.s| <= max)
    ensures i.StrV? && r.errors != [] ==> r.errors == [Error(k, LengthNotInRange(min, max, i.s))]
  {
    if !i.StrV? then Outcome([], [Error(k, NotString)])
    else if |i.s| < min || |i.s| > max then Outcome([], [Error(k, LengthNotInRange(min, max, i.s))])
    else Outcome([], [])
  }

  // ---------------------------------------------------------------------
  // CIDR

  /** What `net.ParseCIDR` yields: an error, or the network whose `String()` is
      `canonical` and whose mask has `prefixBits` leading ones. */
  datatype Cidr = CidrError(cause: Str) | Network(canonical: Str, prefixBits: int)

  /** A network CIDR in canonical form with a prefix length in `[min, max]`.
      `parse` stands for `net.ParseCIDR`. */
  function CIDRNetwork(min: int, max: int, parse: Str -> Cidr, i: Value, k: Str): (r: Outcome)
    ensures r.warnings == []
    ensures !i.StrV? ==> r.errors == [Error(k, NotString)]
    ensures i.StrV? && parse(i.s).CidrError? ==> r.errors == [Error(k, InvalidCidr(i.s, parse(i.s).cause))]
    ensures i.StrV? && parse(i.s).Network? ==>
      var n := parse(i.s);
      var nonCanonical := i.s != n.canonical;
      var outOfRange := n.prefixBits < min || n.prefixBits > max;
      && |r.errors| == (if nonCanonical then 1 else 0) + (if outOfRange then 1 else 0)
      && (Error(k, NotNetworkCidr(n.canonical, i.s)) in r.errors <==> nonCanonical)
      && (Error(k, PrefixNotInRange(min, max, n.prefixBits)) in r.errors <==> outOfRange)
      && (nonCanonical ==> r.errors[0] == Error(k, NotNetworkCidr(n.canonical, i.s)))
  {
    if !i.StrV? then Outcome([], [Error(k, NotString)])
    else
      match parse(i.s)
      case CidrError(cause) => Outcome([], [Error(k, InvalidCidr(i.s, cause))])
      case Network(canonical, bits) =>
        var notNetwork := if i.s != canonical then [Error(k, NotNetworkCidr(canonical, i.s))] else [];
        var badPrefix := if bits < min || bits > max then [Error(k, PrefixNotInRange(min, max, bits))] else [];
        Outcome([], notNetwork + badPrefix)
  }

  /** `CIDRNetwork(8, 24)` on three sample literals, given
      what `net.ParseCIDR` answers for them. */
  lemma CIDRNetworkExamples(parse: Str -> Cidr, k: Str)
    requires parse(Bytes("10.0.0.0/16")) == Network(Bytes("10.0.0.0/16"), 16)
    requires parse(Bytes("10.0.0.1/16")) == Network(Bytes("10.0.0.0/16"), 16)
    requires parse(Bytes("10.0.0.0/4")) == Network(Bytes("0.0.0.0/4"), 4)
    ensures CIDRNetwork(8, 24, parse, StrV(Bytes("10.0.0.0/16")), k).errors == []
    ensures CIDRNetwork(8, 24, parse, StrV(Bytes("10.0.0.1/16")), k).errors
            == [Error(k, NotNetworkCidr(Bytes("10.0.0.0/16"), Bytes("10.0.0.1/16")))]
    ensures Error(k, PrefixNotInRange(8, 24, 4)) in CIDRNetwork(8, 24, parse, StrV(Bytes("10.0.0.0/4")), k).errors
  {
    assert Bytes("10.0.0.1/16")[7] != Bytes("10.0.0.0/16")[7];
  }

  // ---------------------------------------------------------------------
  // JSON and regular expressions: all logic is in the foreign parser

  /** `jsonError` stands for `structure.NormalizeJsonString`: `Some(cause)` when it fails. */
  function ValidateJsonString(jsonError: Value -> Option<Str>, v: Value, k: Str): (r: Outcome)
    ensures r.warnings == []
    ensures r.errors == [] <==> jsonError(v).None?
    ensures jsonError(v).Some? ==> r.errors == [Error(k, InvalidJson(jsonError(v).value))]
  {
    match jsonError(v)
    case None => Outcome([], [])
    case Some(cause) => Outcome([], [Error(k, InvalidJson(cause))])
  }

  /** `compileError` stands for `regexp.Compile`.  The value must be a string:
      the Go code asserts it without checking. */
  function ValidateRegexp(compileError: Str -> Option<Str>, v: Value, k: Str): (r: Outcome)
    requires v.StrV?
    ensures r.warnings == []
    ensures r.errors == [] <==> compileError(v.s).None?
    ensures compileError(v.s).Some? ==> r.errors == [Error(k, InvalidRegexp(compileError(v.s).value))]
  {
    match compileError(v.s)
    case None => Outcome([], [])
    case Some(cause) => Outcome([], [Error(k, InvalidRegexp(cause))])
  }

  datatype Option<+T> = None | Some(value: T)

  // ---------------------------------------------------------------------
  // Unique strings

  /** The value is a `[]interface{}` whose every element is a string; anything
      else makes the Go code panic on a type assertion. */
  predicate IsStringList(v: Value)
  {
    v.ListV? && forall j :: 0 <= j < |v.items| ==> v.items[j].StrV?
  }

  function StringsOf(items: seq<Value>): (xs: seq<Str>)
    requires forall j :: 0 <= j < |items| ==> items[j].StrV?
    ensures |xs| == |items| && forall j :: 0 <= j < |items| ==> xs[j] == items[j].s
  {
    seq(|items|, j requires 0 <= j < |items| => items[j].s)
  }

  ghost predicate Distinct(xs: seq<Str>)
  {
    forall n1, n2 :: 0 <= n1 < |xs| && 0 <= n2 < |xs| && n1 != n2 ==> xs[n1] != xs[n2]
  }

  /** The errors of the inner loop for index `n1`, over `n2` in `[0, m)`. */
  function RowErrors(k: Str, xs: seq<Str>, n1: nat, m: nat): seq<Error>
    requires n1 < |xs| && m <= |xs|
  {
    if m == 0 then []
    else RowErrors(k, xs, n1, m - 1)
         + (if xs[n1] == xs[m - 1] && n1 != m - 1 then [Error(k, Duplicate(xs[n1]))] else [])
  }

  /** The errors of the outer loop over `n1` in `[0, m)`. */
  function DuplicateErrorsUpTo(k: Str, xs: seq<Str>, m: nat): seq<Error>
    requires m <= |xs|
  {
    if m == 0 then [] else DuplicateErrorsUpTo(k, xs, m - 1) + RowErrors(k, xs, m - 1, |xs|)
  }

  /** One error per ordered pair of distinct indices holding equal strings. */
  function DuplicateErrors(k: Str, xs: seq<Str>): seq<Error>
  {
    DuplicateErrorsUpTo(k, xs, |xs|)
  }

  /** The number of errors reporting `x` as a duplicate. */
  function CountDuplicate(es: seq<Error>, x: Str): nat
  {
    if es == [] then 0
    else CountDuplicate(es[..|es| - 1], x) + (if es[|es| - 1].kind == Duplicate(x) then 1 else 0)
  }

  /** The nested index loop of the Go code, appending one error per match. */
  method ValidateListUniqueStrings(v: Value, k: Str) returns (r: Outcome)
    requires IsStringList(v)
    ensures r == Outcome([], DuplicateErrors(k, StringsOf(v.items)))
    ensures r.errors == [] <==> Distinct(StringsOf(v.items))
  {
    var items := v.items;
    ghost var xs := StringsOf(items);
    var errors: seq<Error> := [];
    for n1 := 0 to |items|
      invariant errors == DuplicateErrorsUpTo(k, xs, n1)
    {
      for n2 := 0 to |items|
        invariant errors == DuplicateErrorsUpTo(k, xs, n1) + RowErrors(k, xs, n1, n2)
      {
        if items[n1].s == items[n2].s && n1 != n2 {
          errors := errors + [Error(k, Duplicate(items[n1].s))];
        }
      }
    }
    NoDuplicateErrorsIffDistinct(k, xs);
    return Outcome([], errors);
  }

  /** Element `n1` differs from every other element before `m`. */
  ghost predicate UniqueAmongFirst(xs: seq<Str>, n1: nat, m: nat)
    requires n1 < |xs| && m <= |xs|
  {
    forall n2 :: 0 <= n2 < m && n2 != n1 ==> xs[n2] != xs[n1]
  }

  /** Each of the first `m` elements differs from every other element. */
  ghost predicate FirstUnique(xs: seq<Str>, m: nat)
    requires m <= |xs|
  {
    forall n1 :: 0 <= n1 < m ==> UniqueAmongFirst(xs, n1, |xs|)
  }

  lemma {:induction false} RowErrorsEmpty(k: Str, xs: seq<Str>, n1: nat, m: nat)
    requires n1 < |xs| && m <= |xs|
    ensures RowErrors(k, xs, n1, m) == [] <==> UniqueAmongFirst(xs, n1, m)
  {
    if m > 0 {
      RowErrorsEmpty(k, xs, n1, m - 1);
      assert UniqueAmongFirst(xs, n1, m)
         <==> UniqueAmongFirst(xs, n1, m - 1) && (m - 1 != n1 ==> xs[m - 1] != xs[n1]);
    }
  }

  lemma {:induction false} DuplicateErrorsUpToEmpty(k: Str, xs: seq<Str>, m: nat)
    requires m <= |xs|
    ensures DuplicateErrorsUpTo(k, xs, m) == [] <==> FirstUnique(xs, m)
  {
    if m > 0 {
      DuplicateErrorsUpToEmpty(k, xs, m - 1);
      RowErrorsEmpty(k, xs, m - 1, |xs|);
      assert FirstUnique(xs, m) <==> FirstUnique(xs, m - 1) && UniqueAmongFirst(xs, m - 1, |xs|);
    }
  }

  /** No errors exactly when all elements are pairwise distinct. */
  lemma NoDuplicateErrorsIffDistinct(k: Str, xs: seq<Str>)
    ensures DuplicateErrors(k, xs) == [] <==> Distinct(xs)
  {
    DuplicateErrorsUpToEmpty(k, xs, |xs|);
    if FirstUnique(xs, |xs|) {
      forall n1, n2 | 0 <= n1 < |xs| && 0 <= n2 < |xs| && n1 != n2
        ensures xs[n1] != xs[n2]
      {
        assert UniqueAmongFirst(xs, n1, |xs|);
      }
    }
  }

  lemma {:induction false} CountDuplicateAppend(a: seq<Error>, b: seq<Error>, x: Str)
    ensures CountDuplicate(a + b, x) == CountDuplicate(a, x) + CountDuplicate(b, x)
    decreases |b|
  {
    if b == [] {
      assert a + b == a;
    } else {
      assert (a + b)[..|a + b| - 1] == a + b[..|b| - 1];
      CountDuplicateAppend(a, b[..|b| - 1], x);
    }
  }

  /** How many of the first `m` elements equal `x`. */
  function Occurs(xs: seq<Str>, m: nat, x: Str): nat
    requires m <= |xs|
  {
    if m == 0 then 0 else Occurs(xs, m - 1, x) + (if xs[m - 1] == x then 1 else 0)
  }

  lemma {:induction false} OccursIsMultiplicity(xs: seq<Str>, m: nat, x: Str)
    requires m <= |xs|
    ensures Occurs(xs, m, x) == multiset(xs[..m])[x]
  {
    if m > 0 {
      OccursIsMultiplicity(xs, m - 1, x);
      assert xs[..m] == xs[..m - 1] + [xs[m - 1]];
    }
  }

  lemma {:induction false} RowErrorsCount(k: Str, xs: seq<Str>, n1: nat, m: nat, x: Str)
    requires n1 < |xs| && m <= |xs|
    ensures CountDuplicate(RowErrors(k, xs, n1, m), x)
            == if xs[n1] == x then Occurs(xs, m, x) - (if n1 < m then 1 else 0) else 0
  {
    if m > 0 {
      var prefix := RowErrors(k, xs, n1, m - 1);
      var step := if xs[n1] == xs[m - 1] && n1 != m - 1 then [Error(k, Duplicate(xs[n1]))] else [];
      assert RowErrors(k, xs, n1, m) == prefix + step;
      assert CountDuplicate(prefix, x)
             == if xs[n1] == x then Occurs(xs, m - 1, x) - (if n1 < m - 1 then 1 else 0) else 0 by {
        RowErrorsCount(k, xs, n1, m - 1, x);
      }
      assert CountDuplicate(prefix + step, x) == CountDuplicate(prefix, x) + CountDuplicate(step, x) by {
        CountDuplicateAppend(prefix, step, x);
      }
      assert CountDuplicate(step, x) == if xs[n1] == x && xs[m - 1] == x && n1 != m - 1 then 1 else 0 by {
        if step != [] {
          assert step[..0] == [];
        }
      }
      assert Occurs(xs, m, x) == Occurs(xs, m - 1, x) + (if xs[m - 1] == x then 1 else 0);
    }
  }

  lemma {:induction false} DuplicateErrorsUpToCount(k: Str, xs: seq<Str>, m: nat, x: Str)
    requires m <= |xs|
    ensures CountDuplicate(DuplicateErrorsUpTo(k, xs, m), x)
            == Occurs(xs, m, x) * Occurs(xs, |xs|, x) - Occurs(xs, m, x)
  {
    if m > 0 {
      var before, total := Occurs(xs, m - 1, x), Occurs(xs, |xs|, x);
      var prefix, row := DuplicateErrorsUpTo(k, xs, m - 1), RowErrors(k, xs, m - 1, |xs|);
      assert CountDuplicate(prefix, x) == before * total - before by {
        DuplicateErrorsUpToCount(k, xs, m - 1, x);
      }
      assert CountDuplicate(DuplicateErrorsUpTo(k, xs, m), x) == CountDuplicate(prefix, x) + CountDuplicate(row, x) by {
        CountDuplicateAppend(prefix, row, x);
      }
      assert CountDuplicate(row, x) == if xs[m - 1] == x then total - 1 else 0 by {
        RowErrorsCount(k, xs, m - 1, |xs|, x);
      }
      if xs[m - 1] == x {
        assert Occurs(xs, m, x) == before + 1;
        MultiplySucc(before, total);
      } else {
        assert Occurs(xs, m, x) == before;
      }
    }
  }

  lemma MultiplySucc(a: int, b: int)
    ensures (a + 1) * b == a * b + b
  {
  }

  /** A string occurring `c` times is reported `c * (c - 1)` times: once per
      ordered pair of its positions.  So a string appearing twice yields two
      errors, and a string appearing once yields none. */
  lemma {:induction false} DuplicateErrorsCount(k: Str, xs: seq<Str>, x: Str)
    ensures var c: int := multiset(xs)[x]; CountDuplicate(DuplicateErrors(k, xs), x) == c * (c - 1)
  {
    var n: int := Occurs(xs, |xs|, x);
    assert CountDuplicate(DuplicateErrors(k, xs), x) == n * n - n by {
      DuplicateErrorsUpToCount(k, xs, |xs|, x);
    }
    assert n == multiset(xs)[x] by {
      OccursIsMultiplicity(xs, |xs|, x);
      assert xs[..|xs|] == xs;
    }
    assert n * (n - 1) == n * n - n;
  }

  lemma {:induction false} CountDuplicatePositive(es: seq<Error>, j: nat)
    requires j < |es| && es[j].kind.Duplicate?
    ensures CountDuplicate(es, es[j].kind.entry) > 0
  {
    if j < |es| - 1 {
      CountDuplicatePositive(es[..|es| - 1], j);
    }
  }

  lemma {:induction false} DuplicateErrorsUpToShape(k: Str, xs: seq<Str>, m: nat)
    requires m <= |xs|
    ensures forall e :: e in DuplicateErrorsUpTo(k, xs, m) ==> e.key == k && e.kind.Duplicate?
  {
    if m > 0 {
      DuplicateErrorsUpToShape(k, xs, m - 1);
      RowErrorsShape(k, xs, m - 1, |xs|);
    }
  }

  lemma {:induction false} RowErrorsShape(k: Str, xs: seq<Str>, n1: nat, m: nat)
    requires n1 < |xs| && m <= |xs|
    ensures forall e :: e in RowErrors(k, xs, n1, m) ==> e == Error(k, Duplicate(xs[n1]))
  {
    if m > 0 {
      RowErrorsShape(k, xs, n1, m - 1);
    }
  }

  /** Every error carries the key and names a string that occurs at least twice. */
  lemma DuplicateErrorsNameDuplicates(k: Str, xs: seq<Str>)
    ensures forall j :: 0 <= j < |DuplicateErrors(k, xs)| ==>
      var e := DuplicateErrors(k, xs)[j];
      e.key == k && e.kind.Duplicate? && multiset(xs)[e.kind.entry] >= 2
  {
    var es := DuplicateErrors(k, xs);
    DuplicateErrorsUpToShape(k, xs, |xs|);
    forall j | 0 <= j < |es|
      ensures es[j].key == k && es[j].kind.Duplicate? && multiset(xs)[es[j].kind.entry] >= 2
    {
      assert es[j] in es;
      CountDuplicatePositive(es, j);
      DuplicateErrorsCount(k, xs, es[j].kind.entry);
    }
  }

  /** `["a", "b", "a"]` is reported twice for "a" and never for "b";
      `["a", "b", "c"]` is accepted. */
  lemma DuplicateErrorsExamples(k: Str)
    ensures CountDuplicate(DuplicateErrors(k, [Bytes("a"), Bytes("b"), Bytes("a")]), Bytes("a")) == 2
    ensures CountDuplicate(DuplicateErrors(k, [Bytes("a"), Bytes("b"), Bytes("a")]), Bytes("b")) == 0
    ensures DuplicateErrors(k, [Bytes("a"), Bytes("b"), Bytes("c")]) == []
  {
    var a, b, c := Bytes("a"), Bytes("b"), Bytes("c");
    assert a != b && b != c && a != c by { assert a[0] != b[0] && b[0] != c[0] && a[0] != c[0]; }
    var aba := [a, b, a];
    assert multiset(aba)[a] == 2 && multiset(aba)[b] == 1;
    DuplicateErrorsCount(k, aba, a);
    DuplicateErrorsCount(k, aba, b);
    NoDuplicateErrorsIffDistinct(k, [a, b, c]);
  }
}
