/**
  The result classifier: how a reply of an SDK is compared with the expectation of a case, and which status
  the comparison leads to.
 */
module Classifier {
  import opened Options
  import opened Json
  import opened Events

  // ----- Overrides -----

  /** An override of a value: dictionaries merge key by key, anything else replaces. */
  function Merge(base: Json, override: Json): Json
    decreases override
  {
    if base.Obj? && override.Obj? then
      Obj(map k | k in base.fields.Keys + override.fields.Keys ::
            if k !in override.fields then base.fields[k]
            else if k !in base.fields then override.fields[k]
            else Merge(base.fields[k], override.fields[k]))
    else override
  }

  function DeepMerge(base: Object, override: Object): Object {
    Merge(Obj(base), Obj(override)).fields
  }

  lemma MergedAt(base: Object, override: Object, k: string)
    requires k in override
    ensures var out := DeepMerge(base, override);
      k in out && out[k] == if k in base then Merge(base[k], override[k]) else override[k]
  {
  }

  /** The loop over the override's items, in whatever order they come. */
  method MergeItems(base: Object, override: Object) returns (out: Object)
    ensures out == DeepMerge(base, override)
    decreases Obj(override)
  {
    out := base;
    var left := override.Keys;
    while left != {}
      invariant left <= override.Keys
      invariant out.Keys == base.Keys + (override.Keys - left)
      invariant forall k :: k in out ==>
        if k in override && k !in left then out[k] == DeepMerge(base, override)[k] else k in base && out[k] == base[k]
      decreases left
    {
      var k :| k in left;
      var v := override[k];
      MergedAt(base, override, k);
      assert k in out <==> k in base;
      if v.Obj? && k in out && out[k].Obj? {
        assert v < Obj(override);
        var merged := MergeItems(out[k].fields, v.fields);
        out := out[k := Obj(merged)];
      } else {
        out := out[k := v];
      }
      left := left - {k};
    }
  }

  function Lookup(v: Json, path: seq<string>): Option<Json>
    decreases |path|
  {
    if path == [] then Some(v)
    else if v.Obj? && path[0] in v.fields then Lookup(v.fields[path[0]], path[1..])
    else None
  }

  /** A value sits on the way to a path and ends it. */
  predicate CutShort(v: Json, path: seq<string>)
    decreases |path|
  {
    path != [] && (!v.Obj? || (path[0] in v.fields && CutShort(v.fields[path[0]], path[1..])))
  }

  /**
    What an override does, path by path: a path that the override has merges with what the base has there; a
    path behind a value of the override is gone; every other path is the base's.
   */
  lemma {:induction false} MergeByPath(base: Json, override: Json, path: seq<string>)
    ensures Lookup(Merge(base, override), path)
         == match Lookup(override, path)
            case Some(w) => (match Lookup(base, path) case Some(v) => Some(Merge(v, w)) case None => Some(w))
            case None => if CutShort(override, path) then None else Lookup(base, path)
    decreases |path|
  {
    if path != [] && base.Obj? && override.Obj? && path[0] in override.fields && path[0] in base.fields {
      MergeByPath(base.fields[path[0]], override.fields[path[0]], path[1..]);
    }
  }

  /** Merging a value into itself changes nothing. */
  lemma {:induction false} MergeWithItself(v: Json)
    ensures Merge(v, v) == v
  {
    if v.Obj? {
      forall k | k in v.fields ensures Merge(v.fields[k], v.fields[k]) == v.fields[k] {
        MergeWithItself(v.fields[k]);
      }
    }
  }

  /** An override that was applied is in force: applying it again changes nothing. */
  lemma {:induction false} MergeSettles(base: Json, override: Json)
    ensures Merge(Merge(base, override), override) == Merge(base, override)
    decreases override
  {
    MergeWithItself(override);
    if base.Obj? && override.Obj? {
      var once := Merge(base, override);
      forall k | k in override.fields ensures Merge(once.fields[k], override.fields[k]) == once.fields[k] {
        if k in base.fields {
          MergeSettles(base.fields[k], override.fields[k]);
        } else {
          MergeWithItself(override.fields[k]);
        }
      }
    }
  }

  // ----- Comparison -----

  /** Python's `o.get(key)`. */
  function GetOrNull(o: Object, key: string): Json {
    if key in o then o[key] else Null
  }

  predicate Truthy(v: Json) {
    match v
    case Null => false
    case Bool(b) => b
    case Num(n) => n != Zero
    case Str(s) => s != ""
    case Arr(items) => items != []
    case Obj(fields) => fields != map[]
  }

  /** Case folding and trimming of text. */
  datatype Texts = Texts(lower: string -> string, strip: string -> string)

  predicate Occurs(part: string, text: string) {
    |part| <= |text| && (text[..|part|] == part || Occurs(part, text[1..]))
  }

  datatype Problem =
    | NoBooleanOk
    | AdapterFailed
    | UnnamedRejection
    | OkDiffers
    | BadDeviations
    | RecordDiffers(key: string)
    | ErrorDiffers
    | MessageLacks
    | FieldDiffers(key: string)
    | GateClosed

  predicate FromAdapter(actual: Object) {
    GetOrNull(actual, "error") == Str("AdapterError") || GetOrNull(actual, "error") == Str("ShimError")
  }

  predicate GoodDeviations(texts: Texts, v: Json) {
    v.Arr? && forall i :: 0 <= i < |v.items| ==> v.items[i].Str? && texts.strip(v.items[i].s) != ""
  }

  function DeviationProblems(texts: Texts, expected: Object, actual: Object): set<Problem> {
    if "publishProfile" in expected && !GoodDeviations(texts, GetOrNull(actual, "knownDeviations")) then
      {BadDeviations}
    else {}
  }

  /** The dictionary behind a value, as in Python's `(v or {})`. */
  function Fields(v: Json): Result<Object> {
    if !Truthy(v) then Ok(map[]) else if v.Obj? then Ok(v.fields) else Raised(Crash)
  }

  function RecordProblems(expected: Object, actual: Object): Result<set<Problem>> {
    var want :- Fields(GetOrNull(expected, "record"));
    if want == map[] then Ok({})
    else
      var got :- Fields(GetOrNull(actual, "record"));
      Ok(set k | k in want && !PyEq(GetOrNull(got, k), want[k]) :: RecordDiffers(k))
  }

  function ErrorProblems(expected: Object, actual: Object): set<Problem> {
    var want := GetOrNull(expected, "error");
    if Truthy(want) && !PyEq(GetOrNull(actual, "error"), want) then {ErrorDiffers} else {}
  }

  function MessageProblems(texts: Texts, expected: Object, actual: Object): Result<set<Problem>> {
    var part, message := GetOrNull(expected, "error_contains"), GetOrNull(actual, "message");
    if !Truthy(part) then Ok({})
    else if !part.Str? || (Truthy(message) && !message.Str?) then Raised(Crash)
    else
      var text := if Truthy(message) then message.s else "";
      Ok(if Occurs(texts.lower(part.s), texts.lower(text)) then {} else {MessageLacks})
  }

  /** The keys that have a comparison of their own, for an expected success and an expected rejection. */
  function Special(accepts: bool): set<string> {
    if accepts then {"ok", "record"} else {"ok", "error", "error_contains"}
  }

  predicate FieldAgrees(expected: Object, actual: Object, key: string)
    requires key in expected
  {
    PyEq(GetOrNull(actual, key), expected[key])
  }

  function FieldProblems(expected: Object, actual: Object, accepts: bool): set<Problem> {
    set k | k in expected && k !in Special(accepts) && !FieldAgrees(expected, actual, k) :: FieldDiffers(k)
  }

  function Accepts(expected: Object): bool {
    Truthy(GetOrNull(expected, "ok"))
  }

  function SuccessProblems(texts: Texts, expected: Object, actual: Object): Result<set<Problem>> {
    var record :- RecordProblems(expected, actual);
    Ok(DeviationProblems(texts, expected, actual) + record + FieldProblems(expected, actual, true))
  }

  function RejectionProblems(texts: Texts, expected: Object, actual: Object): Result<set<Problem>> {
    var message :- MessageProblems(texts, expected, actual);
    Ok(ErrorProblems(expected, actual) + message + FieldProblems(expected, actual, false))
  }

  /** Everything in which a reply departs from an expectation. */
  function Problems(texts: Texts, expected: Object, actual: Object): Result<set<Problem>> {
    var ok := GetOrNull(actual, "ok");
    if !ok.Bool? then Ok({NoBooleanOk})
    else if !Hashable(GetOrNull(actual, "error")) then Raised(Crash)
    else if FromAdapter(actual) then Ok({AdapterFailed})
    else if GetOrNull(expected, "ok") == Bool(false) && !Truthy(GetOrNull(expected, "error")) then
      Ok({UnnamedRejection})
    else if Accepts(expected) != ok.b then Ok({OkDiffers})
    else if ok.b then SuccessProblems(texts, expected, actual)
    else RejectionProblems(texts, expected, actual)
  }

  /** A list of problems, in some order, each of them once. */
  ghost predicate Lists(problems: seq<Problem>, found: set<Problem>) {
    && (forall p :: p in problems <==> p in found)
    && forall i, j :: 0 <= i < j < |problems| ==> problems[i] != problems[j]
  }

  lemma ListsMore(problems: seq<Problem>, found: set<Problem>, p: Problem)
    requires Lists(problems, found) && p !in found
    ensures Lists(problems + [p], found + {p})
  {
  }

  /** The loop over the expected record. */
  method CompareRecord(want: Object, got: Object, before: seq<Problem>, ghost found: set<Problem>)
    returns (problems: seq<Problem>)
    requires Lists(before, found) && forall k :: RecordDiffers(k) !in found
    ensures Lists(problems, found + set k | k in want && !PyEq(GetOrNull(got, k), want[k]) :: RecordDiffers(k))
  {
    problems := before;
    var left := want.Keys;
    ghost var seen := found;
    while left != {}
      invariant left <= want.Keys && Lists(problems, seen)
      invariant seen == found
        + set k | k in want && k !in left && !PyEq(GetOrNull(got, k), want[k]) :: RecordDiffers(k)
      decreases left
    {
      var k :| k in left;
      if !PyEq(GetOrNull(got, k), want[k]) {
        ListsMore(problems, seen, RecordDiffers(k));
        problems, seen := problems + [RecordDiffers(k)], seen + {RecordDiffers(k)};
      }
      left := left - {k};
    }
  }

  /** The loop over all expected keys. */
  method CompareFields(
    expected: Object, actual: Object, accepts: bool, before: seq<Problem>, ghost found: set<Problem>)
    returns (problems: seq<Problem>)
    requires Lists(before, found) && forall k :: FieldDiffers(k) !in found
    ensures Lists(problems, found + FieldProblems(expected, actual, accepts))
  {
    problems := before;
    var left := expected.Keys;
    ghost var seen := found;
    while left != {}
      invariant left <= expected.Keys && Lists(problems, seen)
      invariant seen == found + set k | k in expected && k !in left && k !in Special(accepts)
                                      && !FieldAgrees(expected, actual, k) :: FieldDiffers(k)
      decreases left
    {
      var k :| k in left;
      if k !in Special(accepts) && !FieldAgrees(expected, actual, k) {
        ListsMore(problems, seen, FieldDiffers(k));
        problems, seen := problems + [FieldDiffers(k)], seen + {FieldDiffers(k)};
      }
      left := left - {k};
    }
  }

  /** A result lists what a specification finds, or crashes with it. */
  ghost predicate Reports(r: Result<seq<Problem>>, found: Result<set<Problem>>) {
    match found
    case Ok(found) => r.Ok? && Lists(r.value, found)
    case Raised(error) => r == Raised(error)
  }

  method CompareSuccess(texts: Texts, expected: Object, actual: Object) returns (r: Result<seq<Problem>>)
    ensures Reports(r, SuccessProblems(texts, expected, actual))
  {
    var problems: seq<Problem> := [];
    if "publishProfile" in expected && !GoodDeviations(texts, GetOrNull(actual, "knownDeviations")) {
      problems := [BadDeviations];
    }
    var want := Fields(GetOrNull(expected, "record"));
    if want.Raised? {
      return Raised(Crash);
    }
    if want.value != map[] {
      var got := Fields(GetOrNull(actual, "record"));
      if got.Raised? {
        return Raised(Crash);
      }
      problems := CompareRecord(want.value, got.value, problems, DeviationProblems(texts, expected, actual));
    }
    problems := CompareFields(expected, actual, true, problems,
                              DeviationProblems(texts, expected, actual) + RecordProblems(expected, actual).value);
    return Ok(problems);
  }

  method CompareRejection(texts: Texts, expected: Object, actual: Object) returns (r: Result<seq<Problem>>)
    ensures Reports(r, RejectionProblems(texts, expected, actual))
  {
    var problems: seq<Problem> := [];
    if ErrorProblems(expected, actual) != {} {
      problems := [ErrorDiffers];
    }
    var message := MessageProblems(texts, expected, actual);
    if message.Raised? {
      return Raised(Crash);
    }
    if message.value != {} {
      problems := problems + [MessageLacks];
    }
    problems := CompareFields(expected, actual, false, problems, ErrorProblems(expected, actual) + message.value);
    return Ok(problems);
  }

  /** The comparison as it collects its list. */
  method Compare(texts: Texts, expected: Object, actual: Object) returns (r: Result<seq<Problem>>)
    ensures Reports(r, Problems(texts, expected, actual))
  {
    var ok, error := GetOrNull(actual, "ok"), GetOrNull(actual, "error");
    if !ok.Bool? {
      return Ok([NoBooleanOk]);
    }
    if !Hashable(error) {
      return Raised(Crash);
    }
    if FromAdapter(actual) {
      return Ok([AdapterFailed]);
    }
    if GetOrNull(expected, "ok") == Bool(false) && !Truthy(GetOrNull(expected, "error")) {
      return Ok([UnnamedRejection]);
    }
    if Accepts(expected) != ok.b {
      return Ok([OkDiffers]);
    }
    if ok.b {
      r := CompareSuccess(texts, expected, actual);
    } else {
      r := CompareRejection(texts, expected, actual);
    }
  }

  // ----- Classification -----

  /** What a case says about one SDK; an absent member is null. */
  datatype Entry = Entry(expectation: Option<Object>, knownBug: Json)

  datatype Case = Case(
    op: string,
    version: Option<string>,
    expectation: Object,
    uncachedExpectation: Option<Object>,
    sdk: map<string, Entry>,
    failClosedAllowed: bool)

  datatype Capability = Capability(versions: set<string>, directoryCache: bool)

  datatype Kind = Gated | Uncached | Overridden | AsWritten

  const UNSUPPORTED_VERSION: Object :=
    map["ok" := Bool(false), "error" := Str("ParseError"), "error_contains" := Str("unsupported")]

  const NO_WBA: Object :=
    map["ok" := Bool(false), "error" := Str("CapabilityMissing"), "capability" := Str("wba_request_verification"),
        "message" := Str("SDK has signing/directory serving only")]

  const WBA_VERIFY := "wba_verify_request"

  const CHECKPOINT := "c2sp_checkpoint_vector"

  const OPTIONAL_CAPABILITIES: set<string> := {"negotiated_response_signatures", "c2sp_migration_recursion"}

  const GATE_KEYS: set<string> := {"ok", "error", "stored", "causePreserved", "proofRequested"}

  /** The expectation that counts for an SDK. */
  function Resolve(c: Case, sdk: string, capability: Capability): (Object, Kind) {
    if c.version.Some? && c.version.value !in capability.versions then (UNSUPPORTED_VERSION, Gated)
    else if c.uncachedExpectation.Some? && !capability.directoryCache then (c.uncachedExpectation.value, Uncached)
    else if sdk in c.sdk && c.sdk[sdk].expectation.Some? then
      (DeepMerge(c.expectation, c.sdk[sdk].expectation.value), Overridden)
    else (c.expectation, AsWritten)
  }

  datatype Status = Missing | Fail | Xfail | Xpass | Rej | Pass

  function IsMissing(c: Case, actual: Object): Result<bool> {
    var capability := GetOrNull(actual, "capability");
    if c.op == WBA_VERIFY && PyEq(Obj(actual), Obj(NO_WBA)) then Ok(true)
    else if GetOrNull(actual, "error") != Str("CapabilityMissing") then Ok(false)
    else if !Hashable(capability) then Raised(Crash)
    else Ok(capability.Str? && capability.s in OPTIONAL_CAPABILITIES)
  }

  /** A reply that a case with a finite parser budget may give instead. */
  predicate FailsClosed(c: Case, actual: Object) {
    && c.failClosedAllowed && GetOrNull(actual, "ok") == Bool(false)
    && GetOrNull(actual, "error") == Str("LifecycleError")
  }

  function Invariants(expected: Object): Object {
    map k | k in expected && k in GATE_KEYS :: expected[k]
  }

  /** Whether the checkpoint gate lets a reply through. */
  function GateOpen(texts: Texts, c: Case, expected: Object, actual: Object): Result<bool> {
    if c.op != CHECKPOINT then Ok(true)
    else if !Hashable(GetOrNull(actual, "error")) then Raised(Crash)
    else if FromAdapter(actual) then Ok(false)
    else
      var found :- Problems(texts, Invariants(expected), actual);
      Ok(found == {})
  }

  function KnownBug(c: Case, sdk: string, kind: Kind): bool {
    !kind.Gated? && sdk in c.sdk && Truthy(c.sdk[sdk].knownBug)
  }

  /** The status of a reply with the problems found, once the gate is open. */
  function Settle(kind: Kind, bug: bool, clean: bool, actual: Object): Result<Status> {
    if clean then Ok(if bug then Xpass else if kind.Gated? then Rej else Pass)
    else if bug && !Hashable(GetOrNull(actual, "error")) then Raised(Crash)
    else Ok(if bug && !FromAdapter(actual) then Xfail else Fail)
  }

  /** A status with the problems reported under it. */
  datatype Evaluation<P> = Evaluation(status: Status, problems: P)

  function Classify(texts: Texts, c: Case, sdk: string, capability: Capability, actual: Object)
    : Result<Evaluation<set<Problem>>>
  {
    var (expected, kind) := Resolve(c, sdk, capability);
    var missing :- IsMissing(c, actual);
    if missing then Ok(Evaluation(Missing, {}))
    else
      var compared :- Problems(texts, expected, actual);
      var found := if FailsClosed(c, actual) then {} else compared;
      var open :- GateOpen(texts, c, expected, actual);
      if !open then Ok(Evaluation(Fail, if found == {} then {GateClosed} else found))
      else
        var status :- Settle(kind, KnownBug(c, sdk, kind), found == {}, actual);
        Ok(Evaluation(status, found))
  }

  method CheckGate(texts: Texts, c: Case, expected: Object, actual: Object) returns (open: Result<bool>)
    ensures open == GateOpen(texts, c, expected, actual)
  {
    if c.op != CHECKPOINT {
      return Ok(true);
    }
    if !Hashable(GetOrNull(actual, "error")) {
      return Raised(Crash);
    }
    if FromAdapter(actual) {
      return Ok(false);
    }
    var problems := Compare(texts, Invariants(expected), actual);
    if problems.Raised? {
      return Raised(Crash);
    }
    ListsNone(problems.value, Problems(texts, Invariants(expected), actual).value);
    return Ok(problems.value == []);
  }

  lemma ListsNone(problems: seq<Problem>, found: set<Problem>)
    requires Lists(problems, found)
    ensures problems == [] <==> found == {}
  {
    if problems != [] {
      assert problems[0] in found;
    }
  }

  /** The evaluation of one reply. */
  method EvaluateResult(texts: Texts, c: Case, sdk: string, capability: Capability, actual: Object)
    returns (r: Result<Evaluation<seq<Problem>>>)
    ensures match Classify(texts, c, sdk, capability, actual)
            case Ok(e) => r.Ok? && r.value.status == e.status && Lists(r.value.problems, e.problems)
            case Raised(error) => r == Raised(error)
  {
    var (expected, kind) := Resolve(c, sdk, capability);
    var missing := IsMissing(c, actual);
    if missing.Raised? {
      return Raised(Crash);
    }
    if missing.value {
      return Ok(Evaluation(Missing, []));
    }
    var compared := Compare(texts, expected, actual);
    if compared.Raised? {
      return Raised(Crash);
    }
    var problems := if FailsClosed(c, actual) then [] else compared.value;
    ghost var found := if FailsClosed(c, actual) then {} else Problems(texts, expected, actual).value;
    ListsNone(problems, found);
    var open := CheckGate(texts, c, expected, actual);
    if open.Raised? {
      return Raised(Crash);
    }
    if !open.value {
      return Ok(Evaluation(Fail, if problems == [] then [GateClosed] else problems));
    }
    var status := Settle(kind, KnownBug(c, sdk, kind), problems == [], actual);
    if status.Raised? {
      return Raised(Crash);
    }
    return Ok(Evaluation(status.value, problems));
  }

  // ----- What a status guarantees -----

  /** A broken adapter is never excused: not by a known bug, a version gate or a parser budget. */
  lemma AdapterFailureFails(texts: Texts, c: Case, sdk: string, capability: Capability, actual: Object)
    requires FromAdapter(actual)
    ensures var e := Classify(texts, c, sdk, capability, actual);
      e.Ok? && e.value.status.Fail?
  {
    assert Plain(Obj(NO_WBA)).fields["error"] == Str("CapabilityMissing");
    assert "error" in Plain(Obj(actual)).fields && Plain(Obj(actual)).fields["error"] == actual["error"];
  }

  /** Unsupported versions fail closed: no known bug excuses them, and the status REJ takes a rejection. */
  lemma GateRejects(texts: Texts, c: Case, sdk: string, capability: Capability, actual: Object)
    requires Resolve(c, sdk, capability).1.Gated? && Classify(texts, c, sdk, capability, actual).Ok?
    ensures var status := Classify(texts, c, sdk, capability, actual).value.status;
      && (status.Rej? || status.Fail? || status.Missing?)
      && (status.Rej? ==>
            && GetOrNull(actual, "ok") == Bool(false)
            && (GetOrNull(actual, "error") == Str("ParseError") || FailsClosed(c, actual)))
  {
  }

  /** The reply agrees with the expectation on the keys of the gate that the expectation names. */
  predicate AgreesOnNamed(expected: Object, actual: Object) {
    && GetOrNull(actual, "ok").Bool?
    && ("ok" in expected ==> Accepts(expected) == GetOrNull(actual, "ok").b)
    && forall k :: k in expected && k in GATE_KEYS && k != "ok" ==> FieldAgrees(expected, actual, k)
  }

  /** An expectation that neither accepts nor plainly rejects, and names an empty error. */
  predicate LeavesErrorOpen(expected: Object) {
    && "error" in expected && !Truthy(expected["error"])
    && !Accepts(expected) && GetOrNull(expected, "ok") != Bool(false)
  }

  lemma InvariantsKeep(expected: Object)
    ensures var i := Invariants(expected);
      && GetOrNull(i, "ok") == GetOrNull(expected, "ok") && GetOrNull(i, "error") == GetOrNull(expected, "error")
      && ("error" in i <==> "error" in expected)
      && "record" !in i && "publishProfile" !in i && "error_contains" !in i
  {
  }

  /** What it takes to find no problem. */
  lemma CleanParts(texts: Texts, expected: Object, actual: Object)
    requires Problems(texts, expected, actual) == Ok({})
    ensures GetOrNull(actual, "ok") == Bool(Accepts(expected)) && !FromAdapter(actual)
    ensures GetOrNull(expected, "ok") == Bool(false) ==> Truthy(GetOrNull(expected, "error"))
    ensures FieldProblems(expected, actual, Accepts(expected)) == {}
    ensures !Accepts(expected) ==> ErrorProblems(expected, actual) == {}
  {
  }

  lemma FieldProblemIff(expected: Object, actual: Object, accepts: bool, k: string)
    requires k in expected && k !in Special(accepts)
    ensures FieldDiffers(k) in FieldProblems(expected, actual, accepts) <==> !FieldAgrees(expected, actual, k)
  {
  }

  lemma CleanAgreesAt(texts: Texts, expected: Object, actual: Object, k: string)
    requires Problems(texts, expected, actual) == Ok({}) && !LeavesErrorOpen(expected)
    requires k in expected && k !in {"ok", "record", "error_contains"}
    ensures FieldAgrees(expected, actual, k)
  {
    var accepts := Accepts(expected);
    CleanParts(texts, expected, actual);
    if k !in Special(accepts) {
      FieldProblemIff(expected, actual, accepts, k);
    } else {
      assert k == "error" && ErrorProblems(expected, actual) == {};
    }
  }

  /** An open gate means agreement on the named keys, unless the expectation leaves the error open. */
  lemma GateAgrees(texts: Texts, expected: Object, actual: Object)
    requires Problems(texts, Invariants(expected), actual) == Ok({}) && !LeavesErrorOpen(expected)
    ensures AgreesOnNamed(expected, actual)
  {
    InvariantsKeep(expected);
    CleanParts(texts, Invariants(expected), actual);
    forall k | k in expected && k in GATE_KEYS && k != "ok" ensures FieldAgrees(expected, actual, k) {
      CleanAgreesAt(texts, Invariants(expected), actual, k);
      assert FieldAgrees(Invariants(expected), actual, k);
    }
  }

  /** The reply that slips through a gate whose expectation leaves the error open. */
  function OpenReply(expected: Object): Object {
    Invariants(expected)["ok" := Bool(false)]["error" := Str("Other")]
  }

  lemma OpenReplyKeeps(expected: Object)
    ensures var (invariants, reply) := (Invariants(expected), OpenReply(expected));
      && GetOrNull(reply, "ok") == Bool(false) && GetOrNull(reply, "error") == Str("Other")
      && FieldProblems(invariants, reply, false) == {}
  {
    var invariants, reply := Invariants(expected), OpenReply(expected);
    forall k | k in invariants && k !in Special(false) ensures FieldAgrees(invariants, reply, k) {
      assert reply[k] == invariants[k];
    }
  }

  lemma OpenReplyPasses(texts: Texts, invariants: Object, reply: Object)
    requires GetOrNull(reply, "ok") == Bool(false) && GetOrNull(reply, "error") == Str("Other")
    requires !Accepts(invariants) && GetOrNull(invariants, "ok") != Bool(false)
    requires !Truthy(GetOrNull(invariants, "error")) && "error_contains" !in invariants
    requires FieldProblems(invariants, reply, false) == {}
    ensures Problems(texts, invariants, reply) == Ok({})
  {
  }

  lemma OpenReplySlipsThrough(texts: Texts, expected: Object)
    requires LeavesErrorOpen(expected)
    ensures Problems(texts, Invariants(expected), OpenReply(expected)) == Ok({})
    ensures !AgreesOnNamed(expected, OpenReply(expected))
  {
    InvariantsKeep(expected);
    OpenReplyKeeps(expected);
    OpenReplyPasses(texts, Invariants(expected), OpenReply(expected));
    assert !FieldAgrees(expected, OpenReply(expected), "error");
  }

  /** The gate catches every disagreement on a named key if and only if the error is not left open. */
  lemma GateExact(texts: Texts, expected: Object)
    ensures (forall actual :: Problems(texts, Invariants(expected), actual) == Ok({})
               ==> AgreesOnNamed(expected, actual))
        <==> !LeavesErrorOpen(expected)
  {
    if LeavesErrorOpen(expected) {
      OpenReplySlipsThrough(texts, expected);
    } else {
      forall actual: Object | Problems(texts, Invariants(expected), actual) == Ok({})
        ensures AgreesOnNamed(expected, actual)
      {
        GateAgrees(texts, expected, actual);
      }
    }
  }

  /**
    No masking: whatever the case, the override, the known bug and the reply, a checkpoint case that ends other
    than FAIL or MISSING agrees with its expectation on every named key of the gate.
   */
  lemma NoMasking(texts: Texts, c: Case, sdk: string, capability: Capability, actual: Object)
    requires c.op == CHECKPOINT && !LeavesErrorOpen(Resolve(c, sdk, capability).0)
    requires Classify(texts, c, sdk, capability, actual).Ok?
    ensures var status := Classify(texts, c, sdk, capability, actual).value.status;
      status.Fail? || status.Missing? || AgreesOnNamed(Resolve(c, sdk, capability).0, actual)
  {
    var expected := Resolve(c, sdk, capability).0;
    if GateOpen(texts, c, expected, actual) == Ok(true) {
      GateAgrees(texts, expected, actual);
    }
  }

  // ----- What a pass guarantees -----

  predicate IsClean(found: Result<set<Problem>>) {
    found.Ok? && found.value == {}
  }

  predicate RecordAgrees(expected: Object, actual: Object) {
    var want, got := Fields(GetOrNull(expected, "record")), Fields(GetOrNull(actual, "record"));
    && want.Ok?
    && (want.value == map[] ||
        (got.Ok? && forall k :: k in want.value ==> PyEq(GetOrNull(got.value, k), want.value[k])))
  }

  predicate MessageAgrees(texts: Texts, expected: Object, actual: Object) {
    var part, message := GetOrNull(expected, "error_contains"), GetOrNull(actual, "message");
    Truthy(part) ==>
      && part.Str? && (Truthy(message) ==> message.Str?)
      && Occurs(texts.lower(part.s), texts.lower(if Truthy(message) then message.s else ""))
  }

  /** Every plain key that an expectation names is as it says. */
  predicate FieldsAgree(expected: Object, actual: Object, accepts: bool) {
    forall k :: k in expected && k !in Special(accepts) ==> FieldAgrees(expected, actual, k)
  }

  /** A reply that is in every respect what its expectation says. */
  predicate Agrees(texts: Texts, expected: Object, actual: Object) {
    && GetOrNull(actual, "ok") == Bool(Accepts(expected))
    && Hashable(GetOrNull(actual, "error")) && !FromAdapter(actual)
    && (GetOrNull(expected, "ok") == Bool(false) ==> Truthy(GetOrNull(expected, "error")))
    && FieldsAgree(expected, actual, Accepts(expected))
    && if Accepts(expected) then
         && RecordAgrees(expected, actual)
         && ("publishProfile" in expected ==> GoodDeviations(texts, GetOrNull(actual, "knownDeviations")))
       else
         && (Truthy(GetOrNull(expected, "error")) ==> FieldAgrees(expected, actual, "error"))
         && MessageAgrees(texts, expected, actual)
  }

  lemma NoFieldProblems(expected: Object, actual: Object, accepts: bool)
    ensures FieldProblems(expected, actual, accepts) == {} <==> FieldsAgree(expected, actual, accepts)
  {
    forall k | k in expected && k !in Special(accepts)
      ensures FieldDiffers(k) in FieldProblems(expected, actual, accepts) <==> !FieldAgrees(expected, actual, k)
    {
      FieldProblemIff(expected, actual, accepts, k);
    }
  }

  lemma NoRecordProblems(expected: Object, actual: Object)
    ensures IsClean(RecordProblems(expected, actual)) <==> RecordAgrees(expected, actual)
  {
    var want, got := Fields(GetOrNull(expected, "record")), Fields(GetOrNull(actual, "record"));
    if want.Ok? && want.value != map[] && got.Ok? {
      var found := RecordProblems(expected, actual).value;
      assert forall k :: k in want.value ==>
        (RecordDiffers(k) in found <==> !PyEq(GetOrNull(got.value, k), want.value[k]));
    }
  }

  lemma NoSuccessProblems(texts: Texts, expected: Object, actual: Object)
    ensures IsClean(SuccessProblems(texts, expected, actual))
       <==> && RecordAgrees(expected, actual) && FieldsAgree(expected, actual, true)
            && ("publishProfile" in expected ==> GoodDeviations(texts, GetOrNull(actual, "knownDeviations")))
  {
    NoRecordProblems(expected, actual);
    NoFieldProblems(expected, actual, true);
  }

  lemma NoRejectionProblems(texts: Texts, expected: Object, actual: Object)
    ensures IsClean(RejectionProblems(texts, expected, actual))
       <==> && (Truthy(GetOrNull(expected, "error")) ==> FieldAgrees(expected, actual, "error"))
            && MessageAgrees(texts, expected, actual) && FieldsAgree(expected, actual, false)
  {
    NoFieldProblems(expected, actual, false);
  }

  /** The comparison finds nothing if and only if the reply is what the expectation says. */
  lemma NoProblemsIffAgrees(texts: Texts, expected: Object, actual: Object)
    ensures IsClean(Problems(texts, expected, actual)) <==> Agrees(texts, expected, actual)
  {
    NoSuccessProblems(texts, expected, actual);
    NoRejectionProblems(texts, expected, actual);
  }

  /**
    The status of every reply that is not MISSING. It is green, as PASS, as XPASS under a known bug or as REJ
    under a version gate, exactly if the reply is in every respect what its expectation says or fails closed on a
    parser budget that the case allows, and a checkpoint case's gate is open. Otherwise it is XFAIL only where a
    known bug excuses a working adapter behind an open gate, and problems are reported.
   */
  lemma StatusByAgreement(texts: Texts, c: Case, sdk: string, capability: Capability, actual: Object)
    requires Classify(texts, c, sdk, capability, actual).Ok? && IsMissing(c, actual) == Ok(false)
    ensures var e := Classify(texts, c, sdk, capability, actual).value;
      var (expected, kind) := Resolve(c, sdk, capability);
      var bug, open := KnownBug(c, sdk, kind), GateOpen(texts, c, expected, actual) == Ok(true);
      && e.status == (if open && (Agrees(texts, expected, actual) || FailsClosed(c, actual)) then
                        if bug then Xpass else if kind.Gated? then Rej else Pass
                      else if open && bug && !FromAdapter(actual) then Xfail
                      else Fail)
      && (e.problems != {} <==> e.status.Fail? || e.status.Xfail?)
  {
    NoProblemsIffAgrees(texts, Resolve(c, sdk, capability).0, actual);
  }
}
