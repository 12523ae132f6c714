/** What every run of the reducer keeps, and what the last event id commits to. */
module ReducerHistory {
  import opened Options
  import opened Json
  import opened Events
  import opened Reducer

  /** The entry carries valid signatures of the roles that its payload needs under an authority. */
  predicate Authorised(ctx: Context, authority: Option<State>, entry: Object) {
    var roles := RolesUnder(ctx, authority, Payload(entry));
    roles.Ok? && roles.value.Some? && ctx.signed(entry, roles.value.value) == Ok(true)
  }

  /** Some entry with this payload carried valid signatures under the authority. */
  ghost predicate VerifiedUnder(ctx: Context, authority: Option<State>, body: Object) {
    exists entry: Object :: Payload(entry) == body && Authorised(ctx, authority, entry)
  }

  function Before(applied: seq<Event>, i: nat): Option<Event>
    requires i <= |applied|
  {
    if i == 0 then None else Some(applied[i - 1])
  }

  /** An issuance that starts a chain. */
  predicate Starts(ctx: Context, event: Event) {
    && Is(Get(event.body, "type"), "ISSUANCE")
    && "prev_event_id" !in event.body && "prev_state_hash" !in event.body
    && Genesis(ctx, event.body) == Ok(event.state)
  }

  /** An event that links to its predecessor by id and state hash, and derives its state from it. */
  predicate Follows(ctx: Context, before: Event, event: Event) {
    && !Is(Get(event.body, "type"), "ISSUANCE")
    && Is(Get(event.body, "prev_event_id"), before.id)
    && Is(Get(event.body, "prev_state_hash"), StateHash(ctx, before.state))
    && before.state.status.Active?
    && After(ctx, before.state, event.body) == Ok(event.state)
  }

  /** Event i of a history: its number, its identity, its link, and the authority it was verified under. */
  ghost predicate HistoryAt(ctx: Context, applied: seq<Event>, i: nat)
    requires i < |applied|
  {
    var event := applied[i];
    && event.number == i && IsNat(ctx, Get(event.body, "seq"), i)
    && event.id == ctx.eventId(event.body)
    && ctx.addressed(event.body) && !HasForbiddenLink(event.body)
    && (if i == 0 then Starts(ctx, event) else Follows(ctx, applied[i - 1], event))
    && VerifiedUnder(ctx, StateOf(Before(applied, i)), event.body)
  }

  predicate Distinct(applied: seq<Event>) {
    forall i, j :: 0 <= i < j < |applied| ==> applied[i].id != applied[j].id
  }

  ghost predicate IsHistory(ctx: Context, applied: seq<Event>) {
    && Distinct(applied)
    && forall i :: 0 <= i < |applied| ==> HistoryAt(ctx, applied, i)
  }

  lemma {:induction false} FindIndex(applied: seq<Event>, id: string)
    ensures Find(applied, id).Some? <==> exists i :: 0 <= i < |applied| && applied[i].id == id
    ensures Find(applied, id).Some? ==> Find(applied, id).value in applied && Find(applied, id).value.id == id
  {
    if applied != [] && applied[0].id != id {
      FindIndex(applied[1..], id);
      if i :| 0 <= i < |applied| && applied[i].id == id {
        assert applied[1..][i - 1].id == id;
      }
      if Find(applied[1..], id).Some? {
        var i :| 0 <= i < |applied[1..]| && applied[1..][i].id == id;
        assert applied[i + 1].id == id;
      }
    }
  }

  /** Looking up the id of an applied event finds that event. */
  lemma FindOwn(applied: seq<Event>, i: nat)
    requires Distinct(applied) && i < |applied|
    ensures Find(applied, applied[i].id) == Some(applied[i])
  {
    FindIndex(applied, applied[i].id);
    var found := Find(applied, applied[i].id).value;
    var j :| 0 <= j < |applied| && applied[j] == found;
  }

  /** What an applied entry went through, authority as the reducer looks it up. */
  lemma StepCases(ctx: Context, applied: seq<Event>, entry: Object)
    requires Step(ctx, applied, entry).Ok? && Step(ctx, applied, entry).value != applied
    ensures var body := Payload(entry);
      && ctx.addressed(body) && Find(applied, ctx.eventId(body)).None?
      && Predecessor(applied, body).Ok?
      && Authorised(ctx, Authority(applied, Predecessor(applied, body).value), entry)
      && Apply(ctx, Last(applied), body).Ok?
      && Step(ctx, applied, entry).value == applied + [Apply(ctx, Last(applied), body).value]
  {
  }

  lemma ApplyStarts(ctx: Context, body: Object)
    requires Apply(ctx, None, body).Ok?
    ensures var event := Apply(ctx, None, body).value;
      && event.number == 0 && IsNat(ctx, Get(body, "seq"), 0) && event.id == ctx.eventId(body) && event.body == body
      && !HasForbiddenLink(body) && Starts(ctx, event)
  {
  }

  lemma ApplyFollows(ctx: Context, last: Event, body: Object)
    requires Apply(ctx, Some(last), body).Ok?
    ensures var event := Apply(ctx, Some(last), body).value;
      && event.number == last.number + 1 && IsNat(ctx, Get(body, "seq"), last.number + 1)
      && event.id == ctx.eventId(body) && event.body == body
      && !HasForbiddenLink(body) && Follows(ctx, last, event)
  {
  }

  /** The authority of an applied event is the state that the event right before it left. */
  lemma AuthorityIsCurrent(ctx: Context, applied: seq<Event>, entry: Object)
    requires Distinct(applied)
    requires Step(ctx, applied, entry).Ok? && Step(ctx, applied, entry).value != applied
    ensures Authorised(ctx, Current(applied), entry)
  {
    StepCases(ctx, applied, entry);
    var body := Payload(entry);
    if applied == [] {
      ApplyStarts(ctx, body);
    } else {
      ApplyFollows(ctx, applied[|applied| - 1], body);
      FindOwn(applied, |applied| - 1);
    }
  }

  lemma HistoryAppends(ctx: Context, applied: seq<Event>, event: Event)
    requires IsHistory(ctx, applied) && Find(applied, event.id).None?
    requires HistoryAt(ctx, applied + [event], |applied|)
    ensures IsHistory(ctx, applied + [event])
  {
    var next := applied + [event];
    FindIndex(applied, event.id);
    forall i | 0 <= i < |next| ensures HistoryAt(ctx, next, i) {
      if i < |applied| {
        assert HistoryAt(ctx, applied, i);
      }
    }
  }

  lemma StepKeepsHistory(ctx: Context, applied: seq<Event>, entry: Object)
    requires IsHistory(ctx, applied) && Step(ctx, applied, entry).Ok?
    ensures IsHistory(ctx, Step(ctx, applied, entry).value)
  {
    if Step(ctx, applied, entry).value != applied {
      var body := Payload(entry);
      StepCases(ctx, applied, entry);
      AuthorityIsCurrent(ctx, applied, entry);
      var event := Apply(ctx, Last(applied), body).value;
      if applied == [] {
        ApplyStarts(ctx, body);
      } else {
        assert HistoryAt(ctx, applied, |applied| - 1);
        ApplyFollows(ctx, applied[|applied| - 1], body);
      }
      assert HistoryAt(ctx, applied + [event], |applied|);
      HistoryAppends(ctx, applied, event);
    }
  }

  /**
    The run invariant, for every log: numbers are positions, ids are distinct, every event links to the event
    right before it by id and state hash, and was verified under the state that event left, although the
    reducer looks the authority up by the predecessor that the entry names.
   */
  lemma {:induction false} RunIsHistory(ctx: Context, entries: seq<Object>)
    requires Run(ctx, entries).Ok?
    ensures IsHistory(ctx, Run(ctx, entries).value)
  {
    if entries != [] {
      RunIsHistory(ctx, entries[..|entries| - 1]);
      StepKeepsHistory(ctx, Run(ctx, entries[..|entries| - 1]).value, entries[|entries| - 1]);
    }
  }

  /** No event changes the domain name or the entity key, and only the last one can have revoked. */
  lemma {:induction false} HistoryKeepsIdentity(ctx: Context, applied: seq<Event>, i: nat)
    requires IsHistory(ctx, applied) && i < |applied|
    ensures applied[i].state.fqdn == applied[0].state.fqdn
    ensures applied[i].state.entityThumb == applied[0].state.entityThumb
    ensures applied[i].state.status.Revoked? ==> i == |applied| - 1
  {
    assert HistoryAt(ctx, applied, i);
    if i > 0 {
      HistoryKeepsIdentity(ctx, applied, i - 1);
    }
    if i + 1 < |applied| {
      assert HistoryAt(ctx, applied, i + 1);
    }
  }

  // ----- The last id commits to the whole history -----

  /** Two different bodies with the same event id. */
  datatype Twins = Twins(left: Object, right: Object)

  predicate AreTwins(ctx: Context, t: Twins) {
    t.left != t.right && ctx.eventId(t.left) == ctx.eventId(t.right)
  }

  /** Walks two histories back from their ends, searching for two different bodies with the same id. */
  function HistoryTwins(ctx: Context, a: seq<Event>, b: seq<Event>): (found: Option<Twins>)
    ensures found.Some? ==> AreTwins(ctx, found.value)
  {
    if a == [] || b == [] then None
    else
      var t := Twins(a[|a| - 1].body, b[|b| - 1].body);
      if AreTwins(ctx, t) then Some(t) else HistoryTwins(ctx, a[..|a| - 1], b[..|b| - 1])
  }

  lemma HistoryPrefix(ctx: Context, applied: seq<Event>, n: nat)
    requires IsHistory(ctx, applied) && n <= |applied|
    ensures IsHistory(ctx, applied[..n])
  {
    forall i | 0 <= i < n ensures HistoryAt(ctx, applied[..n], i) {
      assert HistoryAt(ctx, applied, i);
    }
  }

  /** Equal last bodies name the same predecessor, or none. */
  lemma LastBodiesLink(ctx: Context, a: seq<Event>, b: seq<Event>)
    requires IsHistory(ctx, a) && IsHistory(ctx, b) && a != [] && b != []
    requires a[|a| - 1].body == b[|b| - 1].body
    ensures |a| == 1 <==> |b| == 1
    ensures |a| > 1 ==> a[|a| - 2].id == b[|b| - 2].id
  {
    assert HistoryAt(ctx, a, |a| - 1) && HistoryAt(ctx, b, |b| - 1);
  }

  lemma IdOfBody(ctx: Context, applied: seq<Event>, i: nat)
    requires IsHistory(ctx, applied) && i < |applied|
    ensures applied[i].id == ctx.eventId(applied[i].body)
  {
    assert HistoryAt(ctx, applied, i);
  }

  /** An event is determined by its place, its body and the event before it. */
  lemma EventDetermined(ctx: Context, a: seq<Event>, b: seq<Event>, i: nat)
    requires IsHistory(ctx, a) && IsHistory(ctx, b) && i < |a| && i < |b|
    requires a[i].body == b[i].body && (i > 0 ==> a[i - 1] == b[i - 1])
    ensures a[i] == b[i]
  {
    assert HistoryAt(ctx, a, i) && HistoryAt(ctx, b, i);
  }

  lemma LastEventsEqual(ctx: Context, a: seq<Event>, b: seq<Event>)
    requires IsHistory(ctx, a) && IsHistory(ctx, b) && |a| == |b| > 0
    requires a[..|a| - 1] == b[..|b| - 1] && a[|a| - 1].body == b[|b| - 1].body
    ensures a == b
  {
    var n := |a| - 1;
    if n > 0 {
      assert a[n - 1] == a[..n][n - 1] && b[n - 1] == b[..n][n - 1];
    }
    EventDetermined(ctx, a, b, n);
    assert a == a[..n] + [a[n]] && b == b[..n] + [b[n]];
  }

  /** Histories that end in the same id are the same history, or two of their bodies share an id. */
  lemma {:induction false} LastIdBinds(ctx: Context, a: seq<Event>, b: seq<Event>)
    requires IsHistory(ctx, a) && IsHistory(ctx, b) && a != [] && b != []
    requires a[|a| - 1].id == b[|b| - 1].id
    requires HistoryTwins(ctx, a, b).None?
    ensures a == b
  {
    IdOfBody(ctx, a, |a| - 1);
    IdOfBody(ctx, b, |b| - 1);
    LastBodiesLink(ctx, a, b);
    if |a| > 1 {
      HistoryPrefix(ctx, a, |a| - 1);
      HistoryPrefix(ctx, b, |b| - 1);
      LastIdBinds(ctx, a[..|a| - 1], b[..|b| - 1]);
    }
    LastEventsEqual(ctx, a, b);
  }

  /**
    Two successful runs over any two logs that end in the same event id applied the same events and reached
    the same state, or two different applied bodies have the same event id.
   */
  lemma LastIdCommitsToHistory(
    ctx: Context, logA: seq<Object>, logB: seq<Object>, a: seq<Event>, b: seq<Event>)
    requires Run(ctx, logA) == Ok(a) && Run(ctx, logB) == Ok(b) && a != [] && b != []
    requires a[|a| - 1].id == b[|b| - 1].id
    requires HistoryTwins(ctx, a, b).None?
    ensures a == b && Reduced(ctx, logA) == Reduced(ctx, logB)
  {
    RunIsHistory(ctx, logA);
    RunIsHistory(ctx, logB);
    LastIdBinds(ctx, a, b);
  }

  /** Under the fixture's primitives, two bodies that share an id are a collision of the text hash. */
  lemma TwinsCollide(hash: TextHash, check: Verifier, byThumb: map<string, Json>, t: Twins)
    requires AreTwins(FixtureContext(hash, check, byThumb), t)
    ensures var u, v := DigestInput(EventDomain, Obj(t.left)), DigestInput(EventDomain, Obj(t.right));
      u != v && hash(u) == hash(v)
  {
    EventIdCollision(hash, t.left, t.right);
  }
}
