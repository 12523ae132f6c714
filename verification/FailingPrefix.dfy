/** The search for the first failing prefix of a log, with the reducer as the function that rebuilds it. */
module FailingPrefix {
  import opened Options
  import opened Events
  import opened Reducer
  import opened ReducerNoise

  /** Whether rebuilding from the entries up to and including j fails. */
  predicate PrefixFails(ctx: Context, entries: seq<Object>, j: nat)
    requires j < |entries|
  {
    Reduced(ctx, entries[..j + 1]).Raised?
  }

  predicate IsFirstFailing(ctx: Context, entries: seq<Object>, i: nat) {
    && i < |entries| && PrefixFails(ctx, entries, i)
    && forall j :: 0 <= j < i ==> !PrefixFails(ctx, entries, j)
  }

  /** Rebuilds every nonempty prefix in turn and stops at the first that fails. */
  method Search(ctx: Context, entries: seq<Object>) returns (index: Option<nat>)
    ensures index.Some? ==> IsFirstFailing(ctx, entries, index.value)
    ensures index.None? ==> forall j :: 0 <= j < |entries| ==> !PrefixFails(ctx, entries, j)
  {
    index := None;
    for i := 0 to |entries|
      invariant index.None?
      invariant forall j :: 0 <= j < i ==> !PrefixFails(ctx, entries, j)
    {
      if PrefixFails(ctx, entries, i) {
        index := Some(i);
        break;
      }
    }
  }

  lemma StepGrows(ctx: Context, applied: seq<Event>, entry: Object)
    requires Step(ctx, applied, entry).Ok?
    ensures applied <= Step(ctx, applied, entry).value
  {
    if Step(ctx, applied, entry).value != applied {
      StepAddsPayload(ctx, applied, entry);
    }
  }

  lemma StillPrefix(a: seq<Event>, b: seq<Event>, c: seq<Event>)
    requires a <= b <= c
    ensures a <= c
  {
  }

  lemma {:induction false} RunGrows(ctx: Context, entries: seq<Object>, i: nat, j: nat)
    requires i <= j <= |entries| && Run(ctx, entries[..j]).Ok?
    ensures Run(ctx, entries[..i]).Ok?
    ensures Run(ctx, entries[..i]).value <= Run(ctx, entries[..j]).value
    decreases j
  {
    if i < j {
      RunExtends(ctx, entries, j - 1);
      RunGrows(ctx, entries, i, j - 1);
      var a, b, c := Run(ctx, entries[..i]).value, Run(ctx, entries[..j - 1]).value, Run(ctx, entries[..j]).value;
      StepGrows(ctx, b, entries[j - 1]);
      StillPrefix(a, b, c);
    }
  }

  /** A prefix that runs through but applies nothing fails for want of a genesis; any other succeeds. */
  lemma PrefixReduces(ctx: Context, prefix: seq<Object>)
    ensures Reduced(ctx, prefix).Raised? <==> Run(ctx, prefix).Raised? || Run(ctx, prefix) == Ok([])
    ensures Run(ctx, prefix).Raised? ==> Reduced(ctx, prefix) == Raised(Run(ctx, prefix).error)
  {
  }

  /** While the run lasts, a prefix fails exactly if it has applied nothing. */
  lemma PrefixFailsEmpty(ctx: Context, entries: seq<Object>, i: nat, j: nat)
    requires j < i <= |entries| && Run(ctx, entries[..i]).Ok?
    ensures Run(ctx, entries[..j + 1]).Ok?
    ensures PrefixFails(ctx, entries, j) <==> Run(ctx, entries[..j + 1]).value == []
  {
    RunGrows(ctx, entries, j + 1, i);
    PrefixReduces(ctx, entries[..j + 1]);
  }

  /** Before the raising entry, a prefix fails only if the first one does, for want of a genesis. */
  lemma EarlierPrefix(ctx: Context, entries: seq<Object>, i: nat, j: nat)
    requires j < i <= |entries| && Run(ctx, entries[..i]).Ok?
    ensures PrefixFails(ctx, entries, j) ==> Run(ctx, entries[..1]) == Ok([])
    ensures j == 0 ==> (PrefixFails(ctx, entries, j) <==> Run(ctx, entries[..1]) == Ok([]))
  {
    PrefixFailsEmpty(ctx, entries, i, j);
    PrefixFailsEmpty(ctx, entries, i, 0);
    RunGrows(ctx, entries, 1, j + 1);
  }

  /**
    Exactness: the search finds the entry at which the full run raises if and only if that is the first
    entry or the first entry is applied.
   */
  lemma SearchExact(ctx: Context, entries: seq<Object>, i: nat, error: Error)
    requires RaisesAt(ctx, entries, i, error)
    ensures IsFirstFailing(ctx, entries, i) <==> i == 0 || Run(ctx, entries[..1]) != Ok([])
    ensures Reduced(ctx, entries[..i + 1]) == Raised(error) && Reduced(ctx, entries) == Raised(error)
  {
    RunStaysRaised(ctx, entries, i + 1);
    PrefixReduces(ctx, entries[..i + 1]);
    PrefixReduces(ctx, entries);
    forall j | 0 <= j < i
      ensures PrefixFails(ctx, entries, j) ==> Run(ctx, entries[..1]) == Ok([])
    {
      EarlierPrefix(ctx, entries, i, j);
    }
    if i > 0 {
      EarlierPrefix(ctx, entries, i, 0);
    }
  }

  /** A nonempty log that applies nothing fails at its first entry. */
  lemma NothingAppliedFailsFirst(ctx: Context, entries: seq<Object>)
    requires entries != [] && Run(ctx, entries) == Ok([])
    ensures IsFirstFailing(ctx, entries, 0)
  {
    assert entries[..|entries|] == entries;
    PrefixFailsEmpty(ctx, entries, |entries|, 0);
    RunGrows(ctx, entries, 1, |entries|);
  }
}
