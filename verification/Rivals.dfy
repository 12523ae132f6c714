/** Words with a second issuance: exactly when the selection model and the reducer still agree. */
module Rivals {
  import opened Options
  import opened Events
  import opened Reducer
  import opened ReducerHistory
  import opened ReducerNoise
  import opened Selection

  /** Another issuance of the same entity: authenticated, and signed as one after genesis has to be. */
  predicate IsRival(ctx: Context, genesis: Event, c: Candidate) {
    var body := Payload(c.entry);
    && c.kind.Issuance? && c.authenticated
    && ctx.addressed(body) && Is(Get(body, "type"), "ISSUANCE") && Predecessor([], body).Ok?
    && var needed := RolesUnder(ctx, Some(genesis.state), body);
       needed.Ok? && needed.value.Some? && ctx.signed(c.entry, needed.value.value) == Ok(true)
  }

  /** The keys that an issuance answers to depend on the entity key alone. */
  lemma IssuanceRoles(ctx: Context, a: State, b: State, body: Object)
    requires a.entityThumb == b.entityThumb && Is(Get(body, "type"), "ISSUANCE")
    ensures RolesUnder(ctx, Some(a), body) == RolesUnder(ctx, Some(b), body)
  {
  }

  /** Whatever predecessor an entry names, the authority knows the entity key of genesis. */
  lemma AuthorityOfRival(ctx: Context, applied: seq<Event>, body: Object)
    requires IsHistory(ctx, applied) && applied != [] && Predecessor([], body).Ok?
    ensures Predecessor(applied, body).Ok?
    ensures var authority := Authority(applied, Predecessor(applied, body).value);
      authority.Some? && authority.value.entityThumb == applied[0].state.entityThumb
  {
    var found := Predecessor(applied, body).value;
    var event := if found.Some? then found.value else applied[|applied| - 1];
    if found.Some? {
      FindIndex(applied, found.value.id);
      FindIndex(applied, body["prev_event_id"].s);
    }
    var i :| 0 <= i < |applied| && applied[i] == event;
    HistoryKeepsIdentity(ctx, applied, i);
  }

  /** After genesis the reducer rejects a rival, as a duplicate or as too late. */
  lemma RivalStep(ctx: Context, genesis: Event, applied: seq<Event>, c: Candidate)
    requires IsHistory(ctx, applied) && applied != [] && applied[0] == genesis && IsRival(ctx, genesis, c)
    requires Find(applied, ctx.eventId(Payload(c.entry))).None?
    ensures Step(ctx, applied, c.entry)
         == Raised(if applied[|applied| - 1].state.status.Revoked? then TerminalState else DuplicateIssuance)
  {
    var body := Payload(c.entry);
    AuthorityOfRival(ctx, applied, body);
    IssuanceRoles(ctx, Authority(applied, Predecessor(applied, body).value).value, genesis.state, body);
  }

  // ----- Words that continue a prefix -----

  lemma EntriesAppend(prefix: seq<Candidate>, rest: seq<Candidate>)
    ensures Entries(prefix + rest) == Entries(prefix) + Entries(rest)
  {
  }

  /** A letter that stops the scan of a prefix stops that of every longer word. */
  lemma ScanStopsAt(ctx: Context, prefix: seq<Candidate>, c: Candidate, rest: seq<Candidate>)
    requires Scan(ctx, prefix).Going? && Choose(ctx, Scan(ctx, prefix).chosen, |prefix|, c).Raised?
    ensures Scan(ctx, prefix + [c] + rest)
         == Stopped(|prefix|, Choose(ctx, Scan(ctx, prefix).chosen, |prefix|, c).error)
  {
    assert (prefix + [c])[..|prefix|] == prefix;
    ScanStopped(ctx, prefix + [c], rest);
  }

  lemma ScanStopped(ctx: Context, prefix: seq<Candidate>, rest: seq<Candidate>)
    requires Scan(ctx, prefix).Stopped?
    ensures Scan(ctx, prefix + rest) == Scan(ctx, prefix)
  {
    assert (prefix + rest)[..|prefix|] == prefix;
    ScanStaysStopped(ctx, prefix + rest, |prefix|);
  }

  /** The raising entry of a log is the raising entry of every longer log. */
  lemma RaisesStill(ctx: Context, entries: seq<Object>, rest: seq<Object>, i: nat, error: Error)
    requires RaisesAt(ctx, entries, i, error)
    ensures RaisesAt(ctx, entries + rest, i, error)
  {
    assert (entries + rest)[..i] == entries[..i] && (entries + rest)[..i + 1] == entries[..i + 1];
  }

  lemma StepRaisesAt(ctx: Context, entries: seq<Object>, e: Object, rest: seq<Object>)
    requires Run(ctx, entries).Ok? && Step(ctx, Run(ctx, entries).value, e).Raised?
    ensures RaisesAt(ctx, entries + [e] + rest, |entries|, Step(ctx, Run(ctx, entries).value, e).error)
  {
    var log := entries + [e];
    assert log[..|entries|] == entries && log[..|entries| + 1] == log;
    RunLast(ctx, entries, e);
    RaisesStill(ctx, log, rest, |entries|, Step(ctx, Run(ctx, entries).value, e).error);
  }

  // ----- A prefix that has stopped -----

  /** A word that has stopped agrees, whatever follows. */
  lemma StoppedPrefixAgrees(
    ctx: Context, genesis: Event, roles: seq<Role>, prefix: seq<Candidate>, rest: seq<Candidate>)
    requires Word(ctx, genesis, roles, prefix) && Scan(ctx, prefix).Stopped?
    ensures Agrees(ctx, prefix + rest)
  {
    var Stopped(i, error) := Scan(ctx, prefix);
    WordInStep(ctx, genesis, roles, prefix);
    ScanStopped(ctx, prefix, rest);
    EntriesAppend(prefix, rest);
    RaisesStill(ctx, Entries(prefix), Entries(rest), i, error);
    StoppedAgrees(ctx, prefix + rest, i, error);
  }

  // ----- A prefix that has applied genesis -----

  /** Where a rival comes after genesis, the reducer stops with its category and the model with another. */
  predicate StopsAt(ctx: Context, word: seq<Candidate>, n: nat, dead: bool) {
    var category := if dead then TerminalState else DuplicateIssuance;
    && Scan(ctx, word) == Stopped(n, if dead then TerminalState else ChainContinuity)
    && RaisesAt(ctx, Entries(word), n, category) && Reduced(ctx, Entries(word)) == Raised(category)
  }

  lemma RivalChosen(ctx: Context, chosen: Chosen, n: nat, genesis: Event, c: Candidate)
    requires IsRival(ctx, genesis, c) && chosen.last.Some? && ctx.eventId(Payload(c.entry)) !in chosen.seen
    ensures Choose(ctx, chosen, n, c) == Raised(if chosen.dead then TerminalState else ChainContinuity)
  {
  }

  lemma LogStopsAt(ctx: Context, entries: seq<Object>, e: Object, rest: seq<Object>, error: Error)
    requires Run(ctx, entries).Ok? && Step(ctx, Run(ctx, entries).value, e) == Raised(error)
    ensures RaisesAt(ctx, entries + [e] + rest, |entries|, error)
    ensures Reduced(ctx, entries + [e] + rest) == Raised(error)
  {
    StepRaisesAt(ctx, entries, e, rest);
    RunStaysRaised(ctx, entries + [e] + rest, |entries| + 1);
  }

  lemma EntriesAround(prefix: seq<Candidate>, c: Candidate, rest: seq<Candidate>)
    ensures Entries(prefix + [c] + rest) == Entries(prefix) + [c.entry] + Entries(rest)
  {
    EntriesAppend(prefix, [c]);
    EntriesAppend(prefix + [c], rest);
    assert Entries([c]) == [c.entry];
  }

  /** Where a rival comes after genesis, both stop at it, each with its category. */
  lemma RivalStops(
    ctx: Context, genesis: Event, roles: seq<Role>, prefix: seq<Candidate>, c: Candidate, rest: seq<Candidate>)
    requires Word(ctx, genesis, roles, prefix) && IsRival(ctx, genesis, c)
    requires Scan(ctx, prefix).Going? && Scan(ctx, prefix).chosen.applied != []
    requires ctx.eventId(Payload(c.entry)) !in Scan(ctx, prefix).chosen.seen
    ensures StopsAt(ctx, prefix + [c] + rest, |prefix|, Scan(ctx, prefix).chosen.dead)
  {
    var chosen := Scan(ctx, prefix).chosen;
    WordInStep(ctx, genesis, roles, prefix);
    RivalStopsBehind(ctx, genesis, prefix, chosen, Run(ctx, Entries(prefix)).value, c, rest);
  }

  lemma RivalStopsBehind(
    ctx: Context, genesis: Event, prefix: seq<Candidate>, chosen: Chosen, applied: seq<Event>, c: Candidate,
    rest: seq<Candidate>)
    requires Scan(ctx, prefix) == Going(chosen) && Run(ctx, Entries(prefix)) == Ok(applied) && chosen.applied != []
    requires Simulates(ctx, genesis, prefix, |prefix|, chosen, applied) && IsRival(ctx, genesis, c)
    requires ctx.eventId(Payload(c.entry)) !in chosen.seen
    ensures StopsAt(ctx, prefix + [c] + rest, |prefix|, chosen.dead)
  {
    RivalStep(ctx, genesis, applied, c);
    RivalChosen(ctx, chosen, |prefix|, genesis, c);
    ScanStopsAt(ctx, prefix, c, rest);
    EntriesAround(prefix, c, rest);
    LogStopsAt(ctx, Entries(prefix), c.entry, Entries(rest), if chosen.dead then TerminalState else DuplicateIssuance);
  }

  /** So the word agrees if and only if a revocation came first. */
  lemma RivalAgreesIffDead(
    ctx: Context, genesis: Event, roles: seq<Role>, prefix: seq<Candidate>, c: Candidate, rest: seq<Candidate>)
    requires Word(ctx, genesis, roles, prefix) && IsRival(ctx, genesis, c)
    requires Scan(ctx, prefix).Going? && Scan(ctx, prefix).chosen.applied != []
    requires ctx.eventId(Payload(c.entry)) !in Scan(ctx, prefix).chosen.seen
    ensures Agrees(ctx, prefix + [c] + rest) <==> Scan(ctx, prefix).chosen.dead
  {
    RivalStops(ctx, genesis, roles, prefix, c, rest);
  }

  // ----- A prefix that has applied nothing -----

  function ShiftedBy(applied: seq<(nat, string)>, offset: nat): (shifted: seq<(nat, string)>)
    ensures |shifted| == |applied|
    ensures forall k :: 0 <= k < |applied| ==> shifted[k] == (applied[k].0 + offset, applied[k].1)
  {
    seq(|applied|, k requires 0 <= k < |applied| => (applied[k].0 + offset, applied[k].1))
  }

  function Shifted(progress: Progress, offset: nat): Progress {
    match progress
    case Going(chosen) => Going(chosen.(applied := ShiftedBy(chosen.applied, offset)))
    case Stopped(i, category) => Stopped(i + offset, category)
  }

  lemma ChooseShifted(ctx: Context, chosen: Chosen, i: nat, offset: nat, c: Candidate)
    ensures var next := Choose(ctx, chosen, i, c);
      Choose(ctx, chosen.(applied := ShiftedBy(chosen.applied, offset)), i + offset, c)
        == if next.Ok? then Ok(next.value.(applied := ShiftedBy(next.value.applied, offset))) else next
  {
    assert ShiftedBy(chosen.applied + [(i, c.effect)], offset)
        == ShiftedBy(chosen.applied, offset) + [(i + offset, c.effect)];
  }

  /** Behind a prefix that applies nothing, the scan goes as it would without the prefix, at shifted indexes. */
  lemma {:induction false} ScanShifted(ctx: Context, prefix: seq<Candidate>, word: seq<Candidate>)
    requires Scan(ctx, prefix) == Going(Nothing)
    ensures Scan(ctx, prefix + word) == Shifted(Scan(ctx, word), |prefix|)
  {
    if word == [] {
      assert prefix + word == prefix && ShiftedBy([], |prefix|) == [];
    } else {
      var n := |word| - 1;
      assert (prefix + word)[..|prefix| + n] == prefix + word[..n];
      ScanShifted(ctx, prefix, word[..n]);
      if Scan(ctx, word[..n]).Going? {
        ChooseShifted(ctx, Scan(ctx, word[..n]).chosen, n, |prefix|, word[n]);
      }
    }
  }

  /** Nothing applied means nothing seen, and nothing applied by the reducer either. */
  lemma NothingChosen(ctx: Context, genesis: Event, roles: seq<Role>, prefix: seq<Candidate>)
    requires Word(ctx, genesis, roles, prefix)
    requires Scan(ctx, prefix).Going? && Scan(ctx, prefix).chosen.applied == []
    ensures Scan(ctx, prefix) == Going(Nothing) && Run(ctx, Entries(prefix)) == Ok([])
  {
    WordInStep(ctx, genesis, roles, prefix);
    var chosen := Scan(ctx, prefix).chosen;
    assert forall id :: id in chosen.seen <==> Find([], id).Some?;
    assert chosen.seen == {};
  }

  lemma SelectsAlikeShifted(
    ctx: Context, prefix: seq<Candidate>, word: seq<Candidate>, chosen: seq<(nat, string)>, ids: seq<string>)
    ensures SelectsAlike(ctx, prefix + word, ShiftedBy(chosen, |prefix|), ids) <==> SelectsAlike(ctx, word, chosen, ids)
  {
    var shifted := ShiftedBy(chosen, |prefix|);
    if |chosen| == |ids| {
      forall k | 0 <= k < |chosen|
        ensures SelectedAt(ctx, prefix + word, shifted, ids, k) <==> SelectedAt(ctx, word, chosen, ids, k)
      {
      }
    }
  }

  /** Behind noise, a log raises where it would raise without the noise. */
  lemma RaisesShifted(
    ctx: Context, noise: seq<Object>, entries: seq<Object>, all: seq<Object>, i: nat, n: nat, error: Error)
    requires Run(ctx, noise) == Ok([]) && all == noise + entries && n == |noise| + i
    ensures RaisesAt(ctx, all, n, error) <==> RaisesAt(ctx, entries, i, error)
  {
    if i < |entries| {
      assert all[..n] == noise + entries[..i] && all[..n + 1] == noise + entries[..i + 1];
      assert [] + entries[..i] == entries[..i] && [] + entries[..i + 1] == entries[..i + 1];
      RunContinues(ctx, noise, [], entries[..i]);
      RunContinues(ctx, noise, [], entries[..i + 1]);
    }
  }

  /** Words that raise alike agree alike. */
  lemma StoppedAlike(
    ctx: Context, x: seq<Candidate>, p: Progress, y: seq<Candidate>, q: Progress, reduced: Result<History>)
    requires p.Stopped? && q.Stopped? && p.category == q.category
    requires RaisesAt(ctx, Entries(x), p.index, p.category) == RaisesAt(ctx, Entries(y), q.index, q.category)
    ensures Agree(ctx, x, p, reduced) == Agree(ctx, y, q, reduced)
  {
  }

  lemma StoppedShifted(
    ctx: Context, prefix: seq<Candidate>, word: seq<Candidate>, progress: Progress, reduced: Result<History>)
    requires progress.Stopped? && Run(ctx, Entries(prefix)) == Ok([])
    ensures Agree(ctx, prefix + word, Shifted(progress, |prefix|), reduced) == Agree(ctx, word, progress, reduced)
  {
    var x, shifted := prefix + word, Shifted(progress, |prefix|);
    EntriesAppend(prefix, word);
    RaisesShifted(
      ctx, Entries(prefix), Entries(word), Entries(x), progress.index, shifted.index, progress.category);
    StoppedAlike(ctx, x, shifted, word, progress, reduced);
  }

  lemma GoingShifted(
    ctx: Context, prefix: seq<Candidate>, word: seq<Candidate>, progress: Progress, reduced: Result<History>)
    requires progress.Going?
    ensures Agree(ctx, prefix + word, Shifted(progress, |prefix|), reduced) == Agree(ctx, word, progress, reduced)
  {
    if reduced.Ok? {
      SelectsAlikeShifted(ctx, prefix, word, progress.chosen.applied, reduced.value.ids);
    }
  }

  lemma AgreeShifted(
    ctx: Context, prefix: seq<Candidate>, word: seq<Candidate>, progress: Progress, reduced: Result<History>)
    requires Run(ctx, Entries(prefix)) == Ok([])
    ensures Agree(ctx, prefix + word, Shifted(progress, |prefix|), reduced) == Agree(ctx, word, progress, reduced)
  {
    if progress.Stopped? {
      StoppedShifted(ctx, prefix, word, progress, reduced);
    } else {
      GoingShifted(ctx, prefix, word, progress, reduced);
    }
  }

  lemma ReducedBehindNoise(ctx: Context, prefix: seq<Candidate>, word: seq<Candidate>)
    requires Run(ctx, Entries(prefix)) == Ok([])
    ensures Reduced(ctx, Entries(prefix + word)) == Reduced(ctx, Entries(word))
  {
    EntriesAppend(prefix, word);
    assert [] + Entries(word) == Entries(word);
    RunContinues(ctx, Entries(prefix), [], Entries(word));
  }

  lemma AgreesBy(ctx: Context, word: seq<Candidate>, progress: Progress, reduced: Result<History>)
    requires Scan(ctx, word) == progress && Reduced(ctx, Entries(word)) == reduced
    ensures Agrees(ctx, word) == Agree(ctx, word, progress, reduced)
  {
  }

  /** A prefix that applies nothing is noise to both: the word agrees if and only if it does without it. */
  lemma NoisyPrefixAgreesIff(
    ctx: Context, genesis: Event, roles: seq<Role>, prefix: seq<Candidate>, word: seq<Candidate>)
    requires Word(ctx, genesis, roles, prefix)
    requires Scan(ctx, prefix).Going? && Scan(ctx, prefix).chosen.applied == []
    ensures Agrees(ctx, prefix + word) <==> Agrees(ctx, word)
  {
    NothingChosen(ctx, genesis, roles, prefix);
    NoiseAgreesIff(ctx, prefix, word, Scan(ctx, word), Reduced(ctx, Entries(word)));
  }

  lemma NoiseAgreesIff(
    ctx: Context, prefix: seq<Candidate>, word: seq<Candidate>, progress: Progress, reduced: Result<History>)
    requires Scan(ctx, prefix) == Going(Nothing) && Run(ctx, Entries(prefix)) == Ok([])
    requires Scan(ctx, word) == progress && Reduced(ctx, Entries(word)) == reduced
    ensures Agrees(ctx, prefix + word) == Agrees(ctx, word)
  {
    ScanShifted(ctx, prefix, word);
    ReducedBehindNoise(ctx, prefix, word);
    AgreesBy(ctx, prefix + word, Shifted(progress, |prefix|), reduced);
    AgreesBy(ctx, word, progress, reduced);
    AgreeShifted(ctx, prefix, word, progress, reduced);
  }

  // ----- All prefixes -----

  /**
    Exactly when the model and the reducer agree on a word in which a rival follows letters that fit a genesis,
    whatever comes behind the rival: the letters before it have stopped the word, or have revoked the identity,
    or have applied nothing and the two agree on the word that the rival starts.
   */
  lemma RivalDecides(
    ctx: Context, genesis: Event, roles: seq<Role>, prefix: seq<Candidate>, c: Candidate, rest: seq<Candidate>)
    requires Word(ctx, genesis, roles, prefix) && IsRival(ctx, genesis, c)
    requires Scan(ctx, prefix).Going? ==> ctx.eventId(Payload(c.entry)) !in Scan(ctx, prefix).chosen.seen
    ensures Agrees(ctx, prefix + [c] + rest)
       <==> match Scan(ctx, prefix)
            case Stopped(_, _) => true
            case Going(chosen) => chosen.dead || (chosen.applied == [] && Agrees(ctx, [c] + rest))
  {
    assert prefix + [c] + rest == prefix + ([c] + rest);
    match Scan(ctx, prefix)
    case Stopped(_, _) => StoppedPrefixAgrees(ctx, genesis, roles, prefix, [c] + rest);
    case Going(chosen) =>
      if chosen.applied == [] {
        NothingChosen(ctx, genesis, roles, prefix);
        NoisyPrefixAgreesIff(ctx, genesis, roles, prefix, [c] + rest);
      } else {
        RivalAgreesIffDead(ctx, genesis, roles, prefix, c, rest);
      }
  }
}
