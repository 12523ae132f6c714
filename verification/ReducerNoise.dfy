/** Entries that a run of the reducer ignores, and copies of an entry that differ in their signatures only. */
module ReducerNoise {
  import opened Events
  import opened Reducer
  import opened ReducerHistory

  /** A run that continues from an applied history. */
  function RunFrom(ctx: Context, start: seq<Event>, entries: seq<Object>): Result<seq<Event>> {
    if entries == [] then Ok(start)
    else
      var applied :- RunFrom(ctx, start, entries[..|entries| - 1]);
      Step(ctx, applied, entries[|entries| - 1])
  }

  lemma {:induction false} RunAppend(ctx: Context, xs: seq<Object>, ys: seq<Object>)
    ensures Run(ctx, xs + ys)
         == if Run(ctx, xs).Ok? then RunFrom(ctx, Run(ctx, xs).value, ys) else Run(ctx, xs)
  {
    if ys == [] {
      assert xs + ys == xs;
    } else {
      assert (xs + ys)[..|xs + ys| - 1] == xs + ys[..|ys| - 1];
      RunAppend(ctx, xs, ys[..|ys| - 1]);
    }
  }

  lemma RunLast(ctx: Context, xs: seq<Object>, e: Object)
    ensures Run(ctx, xs + [e]) == if Run(ctx, xs).Ok? then Step(ctx, Run(ctx, xs).value, e) else Run(ctx, xs)
  {
    assert (xs + [e])[..|xs|] == xs;
  }

  /** Logs that lead to the same point and continue alike end alike. */
  lemma RunContinues(ctx: Context, xs: seq<Object>, ys: seq<Object>, rest: seq<Object>)
    requires Run(ctx, xs) == Run(ctx, ys)
    ensures Run(ctx, xs + rest) == Run(ctx, ys + rest) && Reduced(ctx, xs + rest) == Reduced(ctx, ys + rest)
  {
    RunAppend(ctx, xs, rest);
    RunAppend(ctx, ys, rest);
  }

  /** The entries at which the outcome of the run changes. */
  function Effective(ctx: Context, entries: seq<Object>): seq<Object> {
    if entries == [] then []
    else
      var rest, e := entries[..|entries| - 1], entries[|entries| - 1];
      if Run(ctx, entries) == Run(ctx, rest) then Effective(ctx, rest) else Effective(ctx, rest) + [e]
  }

  /** Dropping every entry that changes nothing leaves the outcome of any log as it was, error or not. */
  lemma {:induction false} NoiseIsIrrelevant(ctx: Context, entries: seq<Object>)
    ensures Run(ctx, Effective(ctx, entries)) == Run(ctx, entries)
    ensures Reduced(ctx, Effective(ctx, entries)) == Reduced(ctx, entries)
  {
    if entries != [] {
      var rest, e := entries[..|entries| - 1], entries[|entries| - 1];
      assert entries == rest + [e];
      NoiseIsIrrelevant(ctx, rest);
      EffectiveLast(ctx, rest, e);
      RunContinues(ctx, Effective(ctx, rest), rest, [e]);
    }
  }

  lemma EffectiveLast(ctx: Context, rest: seq<Object>, e: Object)
    ensures Effective(ctx, rest + [e])
         == if Run(ctx, rest + [e]) == Run(ctx, rest) then Effective(ctx, rest) else Effective(ctx, rest) + [e]
  {
    assert (rest + [e])[..|rest|] == rest;
  }

  lemma StepAddsPayload(ctx: Context, applied: seq<Event>, entry: Object)
    requires Step(ctx, applied, entry).Ok? && Step(ctx, applied, entry).value != applied
    ensures var next := Step(ctx, applied, entry).value;
      |next| == |applied| + 1 && next[..|applied|] == applied && next[|applied|].body == Payload(entry)
  {
    StepCases(ctx, applied, entry);
    if applied == [] {
      ApplyStarts(ctx, Payload(entry));
    } else {
      ApplyFollows(ctx, applied[|applied| - 1], Payload(entry));
    }
  }

  /** What is kept of a successful run are exactly the applied events, in order. */
  lemma {:induction false} EffectiveIsApplied(ctx: Context, entries: seq<Object>)
    requires Run(ctx, entries).Ok?
    ensures |Effective(ctx, entries)| == |Run(ctx, entries).value|
    ensures forall i :: 0 <= i < |Effective(ctx, entries)|
                    ==> Payload(Effective(ctx, entries)[i]) == Run(ctx, entries).value[i].body
  {
    if entries != [] {
      var rest, e := entries[..|entries| - 1], entries[|entries| - 1];
      EffectiveIsApplied(ctx, rest);
      if Run(ctx, entries) != Run(ctx, rest) {
        StepAddsPayload(ctx, Run(ctx, rest).value, e);
      }
    }
  }

  /** A copy of an applied payload is ignored, whatever signatures it carries. */
  lemma CopyIsIgnored(ctx: Context, applied: seq<Event>, i: nat, copy: Object)
    requires IsHistory(ctx, applied) && i < |applied| && Payload(copy) == applied[i].body
    ensures Step(ctx, applied, copy) == Ok(applied)
  {
    assert HistoryAt(ctx, applied, i);
    FindOwn(applied, i);
  }

  /** Anywhere after an applied entry, a same-payload copy can be inserted without any effect. */
  lemma CopyAfterIsIgnored(ctx: Context, xs: seq<Object>, i: nat, copy: Object, rest: seq<Object>)
    requires Run(ctx, xs).Ok? && i < |Run(ctx, xs).value|
    requires Payload(copy) == Run(ctx, xs).value[i].body
    ensures Run(ctx, xs + [copy] + rest) == Run(ctx, xs + rest)
    ensures Reduced(ctx, xs + [copy] + rest) == Reduced(ctx, xs + rest)
  {
    RunIsHistory(ctx, xs);
    CopyIsIgnored(ctx, Run(ctx, xs).value, i, copy);
    RunLast(ctx, xs, copy);
    RunContinues(ctx, xs + [copy], xs, rest);
  }

  /** A step depends on the entry through its payload and the verdict on its signatures only. */
  lemma ReplacedStep(ctx: Context, applied: seq<Event>, entry: Object, copy: Object)
    requires Distinct(applied)
    requires Step(ctx, applied, entry).Ok? && Step(ctx, applied, entry).value != applied
    requires Payload(copy) == Payload(entry) && Authorised(ctx, Current(applied), copy)
    ensures Step(ctx, applied, copy) == Step(ctx, applied, entry)
  {
    StepCases(ctx, applied, entry);
    var body := Payload(entry);
    if applied == [] {
      ApplyStarts(ctx, body);
    } else {
      ApplyFollows(ctx, applied[|applied| - 1], body);
      FindOwn(applied, |applied| - 1);
    }
  }

  /**
    Signature copies: where an entry is applied, a copy of its payload with other valid signatures can take
    its place, or come right before it, and the outcome is the same.
   */
  lemma CopyReplaces(ctx: Context, xs: seq<Object>, entry: Object, copy: Object, rest: seq<Object>)
    requires Run(ctx, xs).Ok? && Run(ctx, xs + [entry]).Ok? && Run(ctx, xs + [entry]) != Run(ctx, xs)
    requires Payload(copy) == Payload(entry) && Authorised(ctx, Current(Run(ctx, xs).value), copy)
    ensures Reduced(ctx, xs + [copy] + rest) == Reduced(ctx, xs + [entry] + rest)
    ensures Reduced(ctx, xs + [copy] + [entry] + rest) == Reduced(ctx, xs + [entry] + rest)
  {
    var applied := Run(ctx, xs).value;
    RunIsHistory(ctx, xs);
    RunLast(ctx, xs, entry);
    RunLast(ctx, xs, copy);
    ReplacedStep(ctx, applied, entry, copy);
    RunContinues(ctx, xs + [copy], xs + [entry], rest);
    StepAddsPayload(ctx, applied, entry);
    CopyAfterIsIgnored(ctx, xs + [copy], |applied|, entry, rest);
  }
}
