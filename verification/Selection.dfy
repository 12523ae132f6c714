/**
  The selection model behind the enumerated candidate histories, and its agreement with the reducer on words
  of every length.
 */
module Selection {
  import opened Options
  import opened Json
  import opened Events
  import opened Reducer
  import opened ReducerHistory
  import opened ReducerNoise
  import opened FailingPrefix

  datatype Kind = Issuance | Rotation | Revocation | Migration

  /** A letter of the alphabet: the entry, the effect it has, its kind, and whether it is authenticated. */
  datatype Candidate = Candidate(entry: Object, effect: string, kind: Kind, authenticated: bool)

  datatype Verdict =
    | Valid(effects: seq<string>, ignored: seq<nat>, revoked: bool)
    | Invalid
    | Failing(index: nat, category: Error)

  /** What the selection has seen of a word. */
  datatype Chosen = Chosen(applied: seq<(nat, string)>, seen: set<string>, last: Option<string>, dead: bool)

  const Nothing := Chosen([], {}, None, false)

  /** One candidate: skipped, applied, or the end of the word. */
  function Choose(ctx: Context, chosen: Chosen, index: nat, c: Candidate): Result<Chosen> {
    var eid := ctx.eventId(Payload(c.entry));
    if eid in chosen.seen || !c.authenticated then Ok(chosen)
    else if chosen.last.None? && !c.kind.Issuance? then Ok(chosen)
    else if chosen.last.Some? && chosen.dead then Raised(TerminalState)
    else if chosen.last.Some? && c.kind.Issuance? then Raised(ChainContinuity)
    else if chosen.last.Some? && "prev_event_id" !in c.entry then Raised(Crash)
    else if chosen.last.Some? && c.entry["prev_event_id"] != Str(chosen.last.value) then Raised(ChainContinuity)
    else Ok(Chosen(chosen.applied + [(index, c.effect)], chosen.seen + {eid}, Some(eid), c.kind.Revocation?))
  }

  datatype Progress = Going(chosen: Chosen) | Stopped(index: nat, category: Error)

  /** One more letter, unless the word has stopped. */
  function Continued(ctx: Context, progress: Progress, n: nat, c: Candidate): Progress {
    match progress
    case Stopped(_, _) => progress
    case Going(chosen) =>
      var next := Choose(ctx, chosen, n, c);
      if next.Ok? then Going(next.value) else Stopped(n, next.error)
  }

  function Scan(ctx: Context, word: seq<Candidate>): Progress {
    if word == [] then Going(Nothing)
    else
      var i := |word| - 1;
      Continued(ctx, Scan(ctx, word[..i]), i, word[i])
  }

  /** The indexes below n that are not among the applied ones, in order. */
  function Ignored(applied: seq<(nat, string)>, n: nat): seq<nat> {
    if n == 0 then []
    else
      var rest := Ignored(applied, n - 1);
      if exists k :: 0 <= k < |applied| && applied[k].0 == n - 1 then rest else rest + [n - 1]
  }

  /** Every index of the word is either applied or ignored, and never both. */
  lemma {:induction false} IgnoredIsComplement(applied: seq<(nat, string)>, n: nat, i: nat)
    ensures i in Ignored(applied, n) <==> i < n && !exists k :: 0 <= k < |applied| && applied[k].0 == i
  {
    if n > 0 {
      IgnoredIsComplement(applied, n - 1, i);
    }
  }

  function Effects(applied: seq<(nat, string)>): seq<string> {
    seq(|applied|, i requires 0 <= i < |applied| => applied[i].1)
  }

  function Conclude(progress: Progress, n: nat): Verdict {
    match progress
    case Stopped(index, category) => Failing(index, category)
    case Going(chosen) =>
      if chosen.applied == [] then Invalid
      else Valid(Effects(chosen.applied), Ignored(chosen.applied, n), chosen.dead)
  }

  lemma {:induction false} ScanStaysStopped(ctx: Context, word: seq<Candidate>, i: nat)
    requires i <= |word| && Scan(ctx, word[..i]).Stopped?
    ensures Scan(ctx, word) == Scan(ctx, word[..i])
    decreases |word| - i
  {
    if i < |word| {
      assert word[..i + 1][..i] == word[..i];
      ScanStaysStopped(ctx, word, i + 1);
    } else {
      assert word[..i] == word;
    }
  }

  /** The loop over the word, with its early returns. */
  method Expect(ctx: Context, word: seq<Candidate>) returns (verdict: Verdict)
    ensures verdict == Conclude(Scan(ctx, word), |word|)
  {
    var applied: seq<(nat, string)>, seen: set<string>, last: Option<string>, dead := [], {}, None, false;
    for index := 0 to |word|
      invariant Scan(ctx, word[..index]) == Going(Chosen(applied, seen, last, dead))
    {
      assert word[..index + 1][..index] == word[..index];
      var c := word[index];
      var next := Choose(ctx, Chosen(applied, seen, last, dead), index, c);
      if next.Raised? {
        ScanStaysStopped(ctx, word, index + 1);
        return Failing(index, next.error);
      }
      applied, seen, last, dead := next.value.applied, next.value.seen, next.value.last, next.value.dead;
    }
    assert word[..|word|] == word;
    if applied == [] {
      return Invalid;
    }
    return Valid(Effects(applied), Ignored(applied, |word|), dead);
  }

  // ----- The alphabets on which the model speaks for the reducer -----

  function KindText(kind: Kind): string {
    match kind
    case Issuance => "ISSUANCE"
    case Rotation => "KEY_ROTATION"
    case Revocation => "REVOCATION"
    case Migration => "MIGRATION"
  }

  /** An issuance body that starts a history, with the roles that sign it. */
  predicate IsGenesis(ctx: Context, genesis: Event, roles: seq<Role>) {
    && ctx.addressed(genesis.body)
    && RolesUnder(ctx, None, genesis.body) == Ok(Some(roles))
    && Apply(ctx, None, genesis.body) == Ok(genesis)
  }

  /**
    A letter that fits a genesis: the one issuance or a copy of it; a rotation or revocation that names genesis
    as its predecessor, extends it properly when it is authenticated, and whose signatures say whether it is;
    or a migration that is not authenticated.
   */
  predicate Fits(ctx: Context, genesis: Event, roles: seq<Role>, c: Candidate) {
    var body := Payload(c.entry);
    && ctx.addressed(body) && Is(Get(body, "type"), KindText(c.kind))
    && match c.kind
       case Issuance => body == genesis.body && ctx.signed(c.entry, roles) == Ok(c.authenticated)
       case Migration => !c.authenticated && Predecessor([], body).Ok?
       case _ =>
         && Is(Get(body, "prev_event_id"), genesis.id)
         && var needed := RolesUnder(ctx, Some(genesis.state), body);
            && needed.Ok? && needed.value.Some?
            && ctx.signed(c.entry, needed.value.value) == Ok(c.authenticated)
            && (c.authenticated ==> !HasForbiddenLink(body) && ApplyNext(ctx, genesis, body).Ok?)
  }

  /** A word over such letters in which different bodies have different ids. */
  ghost predicate Word(ctx: Context, genesis: Event, roles: seq<Role>, word: seq<Candidate>) {
    && IsGenesis(ctx, genesis, roles)
    && (forall c :: c in word ==> Fits(ctx, genesis, roles, c))
    && (forall c, d :: c in word && d in word
          ==> !AreTwins(ctx, Twins(Payload(c.entry), Payload(d.entry))))
  }

  function Entries(word: seq<Candidate>): (entries: seq<Object>)
    ensures |entries| == |word| && forall i :: 0 <= i < |word| ==> entries[i] == word[i].entry
  {
    seq(|word|, i requires 0 <= i < |word| => word[i].entry)
  }

  // ----- The simulation -----

  /** The letter chosen at place k, below n, is the one whose payload the reducer applied at place k. */
  predicate Matches(word: seq<Candidate>, n: nat, chosen: Chosen, applied: seq<Event>, k: nat)
    requires n <= |word| && |chosen.applied| == |applied| && k < |applied|
  {
    var (i, effect) := chosen.applied[k];
    && i < n && word[i].effect == effect && Payload(word[i].entry) == applied[k].body
    && (k > 0 ==> chosen.applied[k - 1].0 < i)
  }

  /** After n letters the model and the reducer are at the same point. */
  ghost predicate Simulates(
    ctx: Context, genesis: Event, word: seq<Candidate>, n: nat, chosen: Chosen, applied: seq<Event>)
    requires n <= |word|
  {
    && IsHistory(ctx, applied)
    && |chosen.applied| == |applied|
    && (forall k :: 0 <= k < |applied| ==> Matches(word, n, chosen, applied, k))
    && chosen.last == (if applied == [] then None else Some(applied[|applied| - 1].id))
    && (forall id :: id in chosen.seen <==> Find(applied, id).Some?)
    && chosen.dead == (applied != [] && applied[|applied| - 1].state.status.Revoked?)
    && (applied != [] ==> applied[0] == genesis)
  }

  /** A letter whose id was applied is a copy, and both skip it. */
  lemma SeenLetter(
    ctx: Context, genesis: Event, roles: seq<Role>, word: seq<Candidate>, n: nat, chosen: Chosen, applied: seq<Event>)
    requires n < |word| && Word(ctx, genesis, roles, word)
    requires Simulates(ctx, genesis, word, n, chosen, applied)
    requires ctx.eventId(Payload(word[n].entry)) in chosen.seen
    ensures Step(ctx, applied, word[n].entry) == Ok(applied)
  {
    var c := word[n];
    var id := ctx.eventId(Payload(c.entry));
    FindIndex(applied, id);
    var k :| 0 <= k < |applied| && applied[k].id == id;
    IdOfBody(ctx, applied, k);
    assert Matches(word, n, chosen, applied, k);
    var d := word[chosen.applied[k].0];
    assert !AreTwins(ctx, Twins(Payload(c.entry), Payload(d.entry)));
    CopyIsIgnored(ctx, applied, k, c.entry);
  }

  lemma GenesisFacts(ctx: Context, genesis: Event, roles: seq<Role>)
    requires IsGenesis(ctx, genesis, roles)
    ensures genesis.id == ctx.eventId(genesis.body) && genesis.state.status.Active?
    ensures Is(Get(genesis.body, "type"), "ISSUANCE") && Get(genesis.body, "prev_event_id") == None
  {
    ApplyStarts(ctx, genesis.body);
  }

  /** Once genesis is applied it is the first event, and looking its id up finds it. */
  lemma GenesisFound(ctx: Context, genesis: Event, word: seq<Candidate>, n: nat, chosen: Chosen, applied: seq<Event>)
    requires n <= |word| && Simulates(ctx, genesis, word, n, chosen, applied) && applied != []
    ensures Find(applied, genesis.id) == Some(genesis) && genesis.id in chosen.seen
  {
    FindOwn(applied, 0);
  }

  /** The verdict of the reducer on the signatures of an unseen letter. */
  lemma UnseenLetter(
    ctx: Context, genesis: Event, roles: seq<Role>, word: seq<Candidate>, n: nat, chosen: Chosen, applied: seq<Event>)
    requires n < |word| && Word(ctx, genesis, roles, word)
    requires Simulates(ctx, genesis, word, n, chosen, applied)
    requires ctx.eventId(Payload(word[n].entry)) !in chosen.seen
    ensures word[n].kind.Issuance? ==> applied == []
    ensures var c := word[n];
      Step(ctx, applied, c.entry)
        == if !c.authenticated || (applied == [] && !c.kind.Issuance?) then Ok(applied)
           else
             var event := Apply(ctx, Last(applied), Payload(c.entry));
             if event.Ok? then Ok(applied + [event.value]) else Raised(event.error)
  {
    var c := word[n];
    var body := Payload(c.entry);
    assert Fits(ctx, genesis, roles, c);
    GenesisFacts(ctx, genesis, roles);
    if applied != [] {
      GenesisFound(ctx, genesis, word, n, chosen, applied);
    }
    assert Find(applied, ctx.eventId(body)).None?;
    match c.kind
    case Issuance =>
      assert RolesUnder(ctx, None, body) == Ok(Some(roles));
    case Migration =>
      assert RolesUnder(ctx, Authority(applied, Predecessor(applied, body).value), body) == Ok(None);
    case _ =>
      assert Predecessor(applied, body) == Ok(Find(applied, genesis.id));
      if applied == [] {
        assert RolesUnder(ctx, None, body) == Ok(None);
      }
  }

  /** An authenticated letter after genesis extends genesis, comes too late, or comes after the end. */
  lemma LaterLetter(
    ctx: Context, genesis: Event, roles: seq<Role>, word: seq<Candidate>, n: nat, chosen: Chosen, applied: seq<Event>)
    requires n < |word| && Word(ctx, genesis, roles, word)
    requires Simulates(ctx, genesis, word, n, chosen, applied) && applied != []
    requires (word[n].kind.Rotation? || word[n].kind.Revocation?) && word[n].authenticated
    ensures var c := word[n];
      var event := Apply(ctx, Last(applied), Payload(c.entry));
      if chosen.dead then event == Raised(TerminalState)
      else if |applied| > 1 then event == Raised(ChainContinuity)
      else event.Ok? && (event.value.state.status.Revoked? <==> c.kind.Revocation?)
  {
    var c := word[n];
    var body := Payload(c.entry);
    assert Fits(ctx, genesis, roles, c);
    if !chosen.dead && |applied| == 1 {
      var state := After(ctx, genesis.state, body);
      assert state.Ok?;
    }
  }

  /** The model and the reducer take the same step on the next letter. */
  lemma LetterSimulates(
    ctx: Context, genesis: Event, roles: seq<Role>, word: seq<Candidate>, n: nat, chosen: Chosen, applied: seq<Event>)
    requires n < |word| && Word(ctx, genesis, roles, word)
    requires Simulates(ctx, genesis, word, n, chosen, applied)
    ensures var next, step := Choose(ctx, chosen, n, word[n]), Step(ctx, applied, word[n].entry);
      if next.Ok? then step.Ok? && Simulates(ctx, genesis, word, n + 1, next.value, step.value)
      else step == Raised(next.error)
  {
    var c := word[n];
    var body := Payload(c.entry);
    var eid := ctx.eventId(body);
    assert Fits(ctx, genesis, roles, c);
    if eid in chosen.seen {
      SeenLetter(ctx, genesis, roles, word, n, chosen, applied);
      SimulatesLater(ctx, genesis, word, n, chosen, applied);
    } else {
      UnseenLetter(ctx, genesis, roles, word, n, chosen, applied);
      if !c.authenticated || (applied == [] && !c.kind.Issuance?) {
        SimulatesLater(ctx, genesis, word, n, chosen, applied);
      } else if applied == [] {
        GenesisFacts(ctx, genesis, roles);
        SimulatesApplied(ctx, genesis, word, n, chosen, applied, genesis);
      } else {
        LaterLetter(ctx, genesis, roles, word, n, chosen, applied);
        var event := Apply(ctx, Last(applied), body);
        if event.Ok? {
          ApplyFollows(ctx, genesis, body);
          SimulatesApplied(ctx, genesis, word, n, chosen, applied, event.value);
        } else if |applied| > 1 {
          assert applied[|applied| - 1].id != applied[0].id;
        }
      }
    }
  }

  /** Skipping a letter keeps the simulation. */
  lemma SimulatesLater(
    ctx: Context, genesis: Event, word: seq<Candidate>, n: nat, chosen: Chosen, applied: seq<Event>)
    requires n < |word| && Simulates(ctx, genesis, word, n, chosen, applied)
    ensures Simulates(ctx, genesis, word, n + 1, chosen, applied)
  {
    var m := n + 1;
    forall k | 0 <= k < |applied| ensures Matches(word, m, chosen, applied, k) {
      assert Matches(word, n, chosen, applied, k);
    }
  }

  /** Applying a letter keeps the simulation. */
  lemma SimulatesApplied(
    ctx: Context, genesis: Event, word: seq<Candidate>, n: nat, chosen: Chosen, applied: seq<Event>, event: Event)
    requires n < |word| && Simulates(ctx, genesis, word, n, chosen, applied)
    requires Step(ctx, applied, word[n].entry) == Ok(applied + [event])
    requires event.body == Payload(word[n].entry) && event.id == ctx.eventId(event.body)
    requires event.state.status.Revoked? <==> word[n].kind.Revocation?
    requires applied == [] ==> event == genesis
    ensures Simulates(ctx, genesis, word, n + 1,
                      Chosen(chosen.applied + [(n, word[n].effect)], chosen.seen + {event.id},
                             Some(event.id), word[n].kind.Revocation?),
                      applied + [event])
  {
    var next := Chosen(chosen.applied + [(n, word[n].effect)], chosen.seen + {event.id},
                       Some(event.id), word[n].kind.Revocation?);
    var m, extended := n + 1, applied + [event];
    StepKeepsHistory(ctx, applied, word[n].entry);
    forall k | 0 <= k < |extended| ensures Matches(word, m, next, extended, k) {
      if k < |applied| {
        assert Matches(word, n, chosen, applied, k);
      } else if k > 0 {
        assert Matches(word, n, chosen, applied, k - 1);
      }
    }
    forall id ensures id in next.seen <==> Find(applied + [event], id).Some? {
      FindAppend(applied, event, id);
    }
  }

  lemma {:induction false} FindAppend(applied: seq<Event>, event: Event, id: string)
    ensures Find(applied + [event], id)
         == if Find(applied, id).Some? then Find(applied, id) else if event.id == id then Some(event) else None
  {
    if applied != [] {
      assert (applied + [event])[1..] == applied[1..] + [event];
      FindAppend(applied[1..], event, id);
    }
  }

  /** After n letters the model and the reducer have run in step. */
  ghost predicate InStep(ctx: Context, genesis: Event, word: seq<Candidate>, n: nat)
    requires n <= |word|
  {
    var progress, run := Scan(ctx, word[..n]), Run(ctx, Entries(word)[..n]);
    if progress.Going? then run.Ok? && Simulates(ctx, genesis, word, n, progress.chosen, run.value)
    else progress.index < n && RaisesAt(ctx, Entries(word), progress.index, progress.category)
  }

  lemma ScanExtends(ctx: Context, word: seq<Candidate>, n: nat)
    requires n < |word|
    ensures Scan(ctx, word[..n + 1]) == Continued(ctx, Scan(ctx, word[..n]), n, word[n])
  {
    assert word[..n + 1][..n] == word[..n];
  }

  lemma InStepNext(ctx: Context, genesis: Event, roles: seq<Role>, word: seq<Candidate>, n: nat)
    requires n < |word| && Word(ctx, genesis, roles, word) && InStep(ctx, genesis, word, n)
    ensures InStep(ctx, genesis, word, n + 1)
  {
    ScanExtends(ctx, word, n);
    if Scan(ctx, word[..n]).Going? {
      var chosen, applied := Scan(ctx, word[..n]).chosen, Run(ctx, Entries(word)[..n]).value;
      RunExtends(ctx, Entries(word), n);
      LetterSimulates(ctx, genesis, roles, word, n, chosen, applied);
    }
  }

  /** On every word over a fitting alphabet the model and the reducer run in step. */
  lemma {:induction false} ScanSimulates(
    ctx: Context, genesis: Event, roles: seq<Role>, word: seq<Candidate>, n: nat)
    requires n <= |word| && Word(ctx, genesis, roles, word)
    ensures InStep(ctx, genesis, word, n)
  {
    if n > 0 {
      ScanSimulates(ctx, genesis, roles, word, n - 1);
      InStepNext(ctx, genesis, roles, word, n - 1);
    } else {
      assert word[..0] == [] && Entries(word)[..0] == [];
    }
  }

  /** The whole word at once. */
  lemma WordInStep(ctx: Context, genesis: Event, roles: seq<Role>, word: seq<Candidate>)
    requires Word(ctx, genesis, roles, word)
    ensures var progress, run := Scan(ctx, word), Run(ctx, Entries(word));
      if progress.Going? then run.Ok? && Simulates(ctx, genesis, word, |word|, progress.chosen, run.value)
      else RaisesAt(ctx, Entries(word), progress.index, progress.category)
  {
    ScanSimulates(ctx, genesis, roles, word, |word|);
    assert word[..|word|] == word && Entries(word)[..|word|] == Entries(word);
  }

  /** Place k of a selection: its letter's effect, and its letter's id in the reducer's list. */
  predicate SelectedAt(ctx: Context, word: seq<Candidate>, chosen: seq<(nat, string)>, ids: seq<string>, k: nat)
    requires k < |chosen| && k < |ids|
  {
    var (i, effect) := chosen[k];
    && i < |word| && word[i].effect == effect && ctx.eventId(Payload(word[i].entry)) == ids[k]
    && (k > 0 ==> chosen[k - 1].0 < i)
  }

  /** The same letters, in the same order, at increasing indexes. */
  predicate SelectsAlike(ctx: Context, word: seq<Candidate>, chosen: seq<(nat, string)>, ids: seq<string>) {
    |chosen| == |ids| && forall k :: 0 <= k < |chosen| ==> SelectedAt(ctx, word, chosen, ids, k)
  }

  lemma SimulatesAlike(ctx: Context, genesis: Event, word: seq<Candidate>, chosen: Chosen, applied: seq<Event>)
    requires Simulates(ctx, genesis, word, |word|, chosen, applied)
    ensures SelectsAlike(ctx, word, chosen.applied, Ids(applied))
  {
    var ids := Ids(applied);
    forall k | 0 <= k < |applied| ensures SelectedAt(ctx, word, chosen.applied, ids, k) {
      assert Matches(word, |word|, chosen, applied, k);
      IdOfBody(ctx, applied, k);
    }
  }

  /** A verdict of the model and an outcome of the reducer that say the same. */
  predicate Agree(ctx: Context, word: seq<Candidate>, progress: Progress, reduced: Result<History>) {
    match Conclude(progress, |word|)
    case Valid(effects, ignored, revoked) =>
      && reduced.Ok?
      && SelectsAlike(ctx, word, progress.chosen.applied, reduced.value.ids)
      && (revoked <==> reduced.value.state.status.Revoked?)
    case Invalid => reduced == Raised(GenesisRequired)
    case Failing(i, category) => reduced == Raised(category) && RaisesAt(ctx, Entries(word), i, category)
  }

  /** The model and the reducer say the same of a word. */
  predicate Agrees(ctx: Context, word: seq<Candidate>) {
    Agree(ctx, word, Scan(ctx, word), Reduced(ctx, Entries(word)))
  }

  lemma GoingAgrees(ctx: Context, genesis: Event, word: seq<Candidate>, chosen: Chosen, applied: seq<Event>)
    requires Scan(ctx, word) == Going(chosen) && Run(ctx, Entries(word)) == Ok(applied)
    requires Simulates(ctx, genesis, word, |word|, chosen, applied)
    ensures Agree(ctx, word, Going(chosen), Reduced(ctx, Entries(word)))
  {
    SimulatesAlike(ctx, genesis, word, chosen, applied);
    assert chosen.applied == [] <==> applied == [];
  }

  lemma StoppedAgrees(ctx: Context, word: seq<Candidate>, i: nat, error: Error)
    requires RaisesAt(ctx, Entries(word), i, error)
    ensures Agree(ctx, word, Stopped(i, error), Reduced(ctx, Entries(word)))
  {
    RunStaysRaised(ctx, Entries(word), i + 1);
    PrefixReduces(ctx, Entries(word));
  }

  /**
    The selection model refines the reducer, for words of any length: the same words are valid, with the same
    applied ids, in the same order, and the same terminal status; a word fails at the same index with the same
    category; and a word without a lifecycle is exactly one that lacks a genesis.
   */
  lemma ExpectRefinesReduce(ctx: Context, genesis: Event, roles: seq<Role>, word: seq<Candidate>)
    requires Word(ctx, genesis, roles, word)
    ensures Agrees(ctx, word)
  {
    WordInStep(ctx, genesis, roles, word);
    match Scan(ctx, word)
    case Stopped(i, error) => StoppedAgrees(ctx, word, i, error);
    case Going(chosen) => GoingAgrees(ctx, genesis, word, chosen, Run(ctx, Entries(word)).value);
  }
}
