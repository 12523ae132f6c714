/** The lifecycle reducer: a hash-chained, signature-authorised state machine over a noisy log. */
module Reducer {
  import opened Options
  import opened Json
  import opened Events

  datatype Status = Active | Revoked

  datatype State = State(fqdn: Json, status: Status, entityThumb: string, operationalThumb: string)

  function StatusText(status: Status): string {
    if status.Active? then "ACTIVE" else "REVOKED"
  }

  function StateJson(state: State): Json {
    Obj(map[
      "fqdn" := state.fqdn,
      "status" := Str(StatusText(state.status)),
      "entity_thumb" := Str(state.entityThumb),
      "operational_thumb" := Str(state.operationalThumb)])
  }

  /**
    The primitives that the reducer calls. What it does is proved for arbitrary ones; FixtureContext puts
    in the digests, the encoder and the signature checks of the fixture code.
   */
  datatype Context = Context(
    addressed: Object -> bool,
    eventId: Object -> string,
    stateHash: Json -> string,
    thumb: Json -> Result<string>,
    signed: (Object, seq<Role>) -> Result<bool>,
    equal: (Json, Json) -> bool,
    equalsNat: (Json, nat) -> bool,
    byThumb: map<string, Json>)

  function FixtureContext(hash: TextHash, check: Verifier, byThumb: map<string, Json>): Context {
    Context(
      body => Addressed(body),
      body => EventId(hash, body),
      state => Digest(hash, StateDomain, state),
      key => Thumb(hash, key),
      (entry, roles) => SignaturesValid(check, entry, roles),
      (v, w) => PyEq(v, w),
      (v, n: nat) => EqualsNat(v, n),
      byThumb)
  }

  function StateHash(ctx: Context, state: State): string {
    ctx.stateHash(StateJson(state))
  }

  /** An applied event: its id, its payload, the number in its sequence field, and the state it left. */
  datatype Event = Event(id: string, body: Object, number: nat, state: State)

  /** The first event with an id: a dictionary lookup, the ids being distinct. */
  function Find(applied: seq<Event>, id: string): Option<Event> {
    if applied == [] then None
    else if applied[0].id == id then Some(applied[0])
    else Find(applied[1..], id)
  }

  function Last(applied: seq<Event>): Option<Event> {
    if applied == [] then None else Some(applied[|applied| - 1])
  }

  function StateOf(event: Option<Event>): Option<State> {
    if event.Some? then Some(event.value.state) else None
  }

  function Current(applied: seq<Event>): Option<State> {
    StateOf(Last(applied))
  }

  /** Whether a member is present and equal to an integer. */
  predicate IsNat(ctx: Context, v: Option<Json>, n: nat) {
    v.Some? && ctx.equalsNat(v.value, n)
  }

  /** Python's equality of two payloads; a value always equals itself. */
  predicate SameBody(ctx: Context, x: Object, y: Object) {
    x == y || ctx.equal(Obj(x), Obj(y))
  }

  /** The applied event that an entry names as its predecessor; a list or dictionary cannot be looked up. */
  function Predecessor(applied: seq<Event>, body: Object): Result<Option<Event>> {
    match Get(body, "prev_event_id")
    case None => Ok(None)
    case Some(v) =>
      if !Hashable(v) then Raised(Crash)
      else Ok(if v.Str? then Find(applied, v.s) else None)
  }

  /** The state whose keys an entry answers to: the named predecessor's, or the current one. */
  function Authority(applied: seq<Event>, predecessor: Option<Event>): Option<State> {
    if predecessor.Some? then StateOf(predecessor) else Current(applied)
  }

  function KnownKey(ctx: Context, thumb: string): Result<Json> {
    if thumb in ctx.byThumb then Ok(ctx.byThumb[thumb]) else Raised(Crash)
  }

  /** The keys whose signatures a kind of event needs, or nothing for an entry to ignore. */
  function RolesUnder(ctx: Context, authority: Option<State>, body: Object): Result<Option<seq<Role>>> {
    var kind :- Field(body, "type");
    if kind == Str("ISSUANCE") then
      var entityKey :- if authority.Some? then KnownKey(ctx, authority.value.entityThumb) else Field(body, "ek");
      var operationalKey :- Field(body, "ku");
      Ok(Some([Role("ae", entityKey), Role("op", operationalKey)]))
    else if authority.Some? && kind == Str("KEY_ROTATION") then
      var oldKey :- KnownKey(ctx, authority.value.operationalThumb);
      var newKey :- Field(body, "new_ku");
      Ok(Some([Role("prev_op", oldKey), Role("new_op", newKey)]))
    else if authority.Some? && kind == Str("REVOCATION") then
      var entityKey :- KnownKey(ctx, authority.value.entityThumb);
      Ok(Some([Role("ae", entityKey)]))
    else Ok(None)
  }

  /** The state after genesis. */
  function Genesis(ctx: Context, body: Object): Result<State> {
    var fqdn :- Field(body, "fqdn");
    var entityKey :- Field(body, "ek");
    var entityThumb :- ctx.thumb(entityKey);
    var operationalKey :- Field(body, "ku");
    var operationalThumb :- ctx.thumb(operationalKey);
    Ok(State(fqdn, Active, entityThumb, operationalThumb))
  }

  /** The state after a later event. */
  function After(ctx: Context, state: State, body: Object): Result<State> {
    var kind :- Field(body, "type");
    if kind == Str("KEY_ROTATION") then
      var oldThumb :- Field(body, "prev_thumb");
      var _ :- Guard(oldThumb == Str(state.operationalThumb), Crash);
      var newThumb :- Field(body, "new_thumb");
      var newKey :- Field(body, "new_ku");
      var thumb :- ctx.thumb(newKey);
      var _ :- Guard(newThumb == Str(thumb), Crash);
      Ok(state.(operationalThumb := thumb))
    else if kind == Str("REVOCATION") then
      var reason :- Field(body, "reason");
      var _ :- Guard(reason == Str("keyCompromise"), Crash);
      Ok(state.(status := Revoked))
    else Ok(state)
  }

  predicate HasForbiddenLink(body: Object) {
    "event_id" in body || "prev_index" in body || "prev_leaf_hash" in body
  }

  /** Genesis: an issuance with sequence number 0 and no predecessor. */
  function ApplyGenesis(ctx: Context, body: Object): Result<Event> {
    var kind :- Field(body, "type");
    var _ :- Guard(kind == Str("ISSUANCE"), ChainContinuity);
    var number :- Field(body, "seq");
    var first := IsNat(ctx, Some(number), 0) && "prev_event_id" !in body && "prev_state_hash" !in body;
    var _ :- Guard(first, ChainContinuity);
    var state :- Genesis(ctx, body);
    Ok(Event(ctx.eventId(body), body, 0, state))
  }

  /** Whether an entry extends an event: predecessor, number and state hash. */
  predicate Extends(ctx: Context, last: Event, body: Object) {
    && Is(Get(body, "prev_event_id"), last.id)
    && IsNat(ctx, Get(body, "seq"), last.number + 1)
    && Is(Get(body, "prev_state_hash"), StateHash(ctx, last.state))
  }

  function ApplyNext(ctx: Context, last: Event, body: Object): Result<Event> {
    var _ :- Guard(Extends(ctx, last, body), ChainContinuity);
    var state :- After(ctx, last.state, body);
    Ok(Event(ctx.eventId(body), body, last.number + 1, state))
  }

  /** An authenticated entry against the last applied event. */
  function Apply(ctx: Context, last: Option<Event>, body: Object): Result<Event> {
    if last.Some? && last.value.state.status != Active then Raised(TerminalState)
    else if last.Some? && Is(Get(body, "type"), "ISSUANCE") then Raised(DuplicateIssuance)
    else if HasForbiddenLink(body) then Raised(ChainContinuity)
    else if last.None? then ApplyGenesis(ctx, body)
    else ApplyNext(ctx, last.value, body)
  }

  /** One entry of the log. */
  function Step(ctx: Context, applied: seq<Event>, entry: Object): Result<seq<Event>> {
    var body := Payload(entry);
    var id := ctx.eventId(body);
    var _ :- Guard(ctx.addressed(body), Crash);
    if Find(applied, id).Some? then
      var _ :- Guard(SameBody(ctx, body, Find(applied, id).value.body), Crash);
      Ok(applied)
    else
      var predecessor :- Predecessor(applied, body);
      var roles :- RolesUnder(ctx, Authority(applied, predecessor), body);
      if roles.None? then Ok(applied)
      else
        var valid :- ctx.signed(entry, roles.value);
        if !valid then Ok(applied)
        else
          var event :- Apply(ctx, Last(applied), body);
          Ok(applied + [event])
  }

  /** The events applied by a log. */
  function Run(ctx: Context, entries: seq<Object>): Result<seq<Event>> {
    if entries == [] then Ok([])
    else
      var applied :- Run(ctx, entries[..|entries| - 1]);
      Step(ctx, applied, entries[|entries| - 1])
  }

  function Ids(applied: seq<Event>): (ids: seq<string>)
    ensures |ids| == |applied| && forall i :: 0 <= i < |ids| ==> ids[i] == applied[i].id
  {
    seq(|applied|, i requires 0 <= i < |applied| => applied[i].id)
  }

  datatype History = History(ids: seq<string>, state: State)

  function Reduced(ctx: Context, entries: seq<Object>): Result<History> {
    var applied :- Run(ctx, entries);
    if applied == [] then Raised(GenesisRequired)
    else Ok(History(Ids(applied), applied[|applied| - 1].state))
  }

  lemma RunExtends(ctx: Context, entries: seq<Object>, i: nat)
    requires i < |entries|
    ensures Run(ctx, entries[..i + 1])
         == var applied := Run(ctx, entries[..i]);
            if applied.Ok? then Step(ctx, applied.value, entries[i]) else Raised(applied.error)
  {
    assert entries[..i + 1][..i] == entries[..i];
  }

  lemma {:induction false} RunStaysRaised(ctx: Context, entries: seq<Object>, i: nat)
    requires i <= |entries| && Run(ctx, entries[..i]).Raised?
    ensures Run(ctx, entries) == Raised(Run(ctx, entries[..i]).error)
    decreases |entries| - i
  {
    if i < |entries| {
      RunExtends(ctx, entries, i);
      RunStaysRaised(ctx, entries, i + 1);
    } else {
      assert entries[..i] == entries;
    }
  }

  /** What one more entry does to a run. */
  lemma RunOne(ctx: Context, entries: seq<Object>, i: nat, applied: seq<Event>, next: Result<seq<Event>>)
    requires i < |entries| && Run(ctx, entries[..i]) == Ok(applied) && Step(ctx, applied, entries[i]) == next
    ensures Run(ctx, entries[..i + 1]) == next
    ensures next.Raised? ==> Run(ctx, entries) == Raised(next.error)
  {
    RunExtends(ctx, entries, i);
    if next.Raised? {
      RunStaysRaised(ctx, entries, i + 1);
    }
  }

  /** The entry at which a run raises: everything before it runs through. */
  predicate RaisesAt(ctx: Context, entries: seq<Object>, i: nat, error: Error) {
    i < |entries| && Run(ctx, entries[..i]).Ok? && Run(ctx, entries[..i + 1]) == Raised(error)
  }

  /** The loop of the reducer: seen, last and state, one entry at a time; at is where it ends. */
  method Reduce(ctx: Context, entries: seq<Object>) returns (r: Result<History>, ghost at: nat)
    ensures r == Reduced(ctx, entries)
    ensures if at < |entries| then r.Raised? && RaisesAt(ctx, entries, at, r.error) else Run(ctx, entries).Ok?
  {
    at := |entries|;
    var seen: seq<Event>, last: Option<Event>, state: Option<State> := [], None, None;
    for i := 0 to |entries|
      invariant Run(ctx, entries[..i]) == Ok(seen)
      invariant last == Last(seen) && state == Current(seen)
    {
      var next := ReduceOne(ctx, seen, last, state, entries[i]);
      if next.Raised? {
        RunOne(ctx, entries, i, seen, Raised(next.error));
        return Raised(next.error), i;
      }
      RunOne(ctx, entries, i, seen, Ok(if next.value.Some? then seen + [next.value.value] else seen));
      if next.value.Some? {
        seen, last, state := seen + [next.value.value], next.value, StateOf(next.value);
      }
    }
    assert entries[..|entries|] == entries;
    if last.None? || state.None? {
      return Raised(GenesisRequired), at;
    }
    return Ok(History(Ids(seen), state.value)), at;
  }

  /** The body of the loop: the event that an entry adds, or nothing for an entry to skip. */
  method ReduceOne(ctx: Context, seen: seq<Event>, last: Option<Event>, state: Option<State>, entry: Object)
    returns (r: Result<Option<Event>>)
    requires last == Last(seen) && state == Current(seen)
    ensures r.Raised? ==> Step(ctx, seen, entry) == Raised(r.error)
    ensures r.Ok? ==> Step(ctx, seen, entry) == Ok(if r.value.Some? then seen + [r.value.value] else seen)
  {
    var body := Payload(entry);
    var identity := ctx.eventId(body);
    var _ :- Guard(ctx.addressed(body), Crash);
    var known := Find(seen, identity);
    if known.Some? {
      var _ :- Guard(SameBody(ctx, body, known.value.body), Crash);
      return Ok(None);
    }
    var predecessor :- Predecessor(seen, body);
    var authority := if predecessor.Some? then StateOf(predecessor) else state;
    var roles :- RolesUnder(ctx, authority, body);
    if roles.None? {
      return Ok(None);
    }
    var valid :- ctx.signed(entry, roles.value);
    if !valid {
      return Ok(None);
    }
    var event :- Apply(ctx, last, body);
    return Ok(Some(event));
  }
}
