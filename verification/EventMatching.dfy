/** How the Go shim finds the log candidates behind the events that a client reports as applied. */
module EventMatching {

  /** The key of an event: its type and four signature values, joined by a zero character. */
  function Join(parts: seq<string>): string {
    if parts == [] then ""
    else if |parts| == 1 then parts[0]
    else parts[0] + ("\0" + Join(parts[1..]))
  }

  predicate NoZero(s: string) {
    forall i :: 0 <= i < |s| ==> s[i] != '\0'
  }

  lemma SeparatorPlace(a: string, x: string, b: string, y: string)
    requires NoZero(a) && NoZero(b) && a + ("\0" + x) == b + ("\0" + y)
    ensures a == b && x == y
  {
    var s, t := a + ("\0" + x), b + ("\0" + y);
    assert s[|a|] == '\0' && t[|b|] == '\0';
    assert forall i :: 0 <= i < |b| ==> t[i] == b[i];
    assert forall i :: 0 <= i < |a| ==> s[i] == a[i];
    assert a == s[..|a|] && b == t[..|b|] && x == s[|a| + 1..] && y == t[|b| + 1..];
  }

  /** Keys of equally many parts that hold no zero character tell all the parts apart. */
  lemma {:induction false} JoinInjective(a: seq<string>, b: seq<string>)
    requires |a| == |b| && Join(a) == Join(b)
    requires forall i :: 0 <= i < |a| ==> NoZero(a[i]) && NoZero(b[i])
    ensures a == b
  {
    if |a| >= 2 {
      assert NoZero(a[0]) && NoZero(b[0]);
      SeparatorPlace(a[0], Join(a[1..]), b[0], Join(b[1..]));
      JoinInjective(a[1..], b[1..]);
      assert a == [a[0]] + a[1..] && b == [b[0]] + b[1..];
    }
  }

  /** The first candidate with a key, from an index on; the number of candidates if there is none. */
  function FirstFrom(keys: seq<string>, from: nat, key: string): (i: nat)
    requires from <= |keys|
    ensures from <= i <= |keys| && (i < |keys| ==> keys[i] == key)
    ensures forall j :: from <= j < i ==> keys[j] != key
    decreases |keys| - from
  {
    if from == |keys| || keys[from] == key then from else FirstFrom(keys, from + 1, key)
  }

  /** The candidate indexes matched, in the order of the events; an event without a match is skipped. */
  function Greedy(events: seq<string>, keys: seq<string>, next: nat): seq<nat>
    requires next <= |keys|
  {
    if events == [] then []
    else
      var i := FirstFrom(keys, next, events[0]);
      if i == |keys| then Greedy(events[1..], keys, next) else [i] + Greedy(events[1..], keys, i + 1)
  }

  /** The indexes below n outside a set, in order. */
  function Outside(used: set<nat>, n: nat): seq<nat> {
    if n == 0 then [] else Outside(used, n - 1) + if n - 1 in used then [] else [n - 1]
  }

  function Members(indexes: seq<nat>): (s: set<nat>)
    ensures forall i :: i in s <==> i in indexes
  {
    set i | i in indexes
  }

  lemma {:induction false} GreedyStep(events: seq<string>, keys: seq<string>, next: nat)
    requires next <= |keys| && events != []
    ensures var i := FirstFrom(keys, next, events[0]);
      Greedy(events, keys, next)
        == if i < |keys| then [i] + Greedy(events[1..], keys, i + 1) else Greedy(events[1..], keys, next)
  {
  }

  /** The matches so far, completed by those of the events from e on, are those of all events. */
  predicate Reached(events: seq<string>, keys: seq<string>, e: nat, matched: seq<nat>, next: nat) {
    e <= |events| && next <= |keys| && Greedy(events, keys, 0) == matched + Greedy(events[e..], keys, next)
  }

  lemma ReachedByMatch(events: seq<string>, keys: seq<string>, e: nat, matched: seq<nat>, next: nat)
    requires e < |events| && Reached(events, keys, e, matched, next) && FirstFrom(keys, next, events[e]) < |keys|
    ensures var i := FirstFrom(keys, next, events[e]);
      Reached(events, keys, e + 1, matched + [i], i + 1)
  {
    var i := FirstFrom(keys, next, events[e]);
    var rest := Greedy(events[e + 1..], keys, i + 1);
    GreedyStep(events[e..], keys, next);
    assert events[e..][1..] == events[e + 1..];
    assert matched + ([i] + rest) == matched + [i] + rest;
  }

  lemma ReachedBySkip(events: seq<string>, keys: seq<string>, e: nat, matched: seq<nat>, next: nat)
    requires e < |events| && Reached(events, keys, e, matched, next) && FirstFrom(keys, next, events[e]) == |keys|
    ensures Reached(events, keys, e + 1, matched, next)
  {
    GreedyStep(events[e..], keys, next);
    assert events[e..][1..] == events[e + 1..];
  }

  /** The effects of the candidates at the matched indexes. */
  predicate Picks(applied: seq<string>, matched: seq<nat>, effects: seq<string>) {
    && |applied| == |matched|
    && forall k :: 0 <= k < |matched| ==> matched[k] < |effects| && applied[k] == effects[matched[k]]
  }

  lemma PicksNext(applied: seq<string>, matched: seq<nat>, effects: seq<string>, i: nat)
    requires Picks(applied, matched, effects) && i < |effects|
    ensures Picks(applied + [effects[i]], matched + [i], effects)
    ensures Members(matched + [i]) == Members(matched) + {i}
  {
  }

  method NextCandidate(keys: seq<string>, next: nat, key: string) returns (i: nat)
    requires next <= |keys|
    ensures i == FirstFrom(keys, next, key) <= |keys|
  {
    i := next;
    while i < |keys| && keys[i] != key
      invariant next <= i <= |keys|
      invariant FirstFrom(keys, next, key) == FirstFrom(keys, i, key)
    {
      i := i + 1;
    }
  }

  /** The matching loop: the effects of the matched candidates, and which candidates are used. */
  method MatchEvents(events: seq<string>, keys: seq<string>, effects: seq<string>)
    returns (applied: seq<string>, used: set<nat>, matched: seq<nat>)
    requires |effects| == |keys|
    ensures matched == Greedy(events, keys, 0) && used == Members(matched)
    ensures Picks(applied, matched, effects)
  {
    applied, used, matched := [], {}, [];
    var next := 0;
    for e := 0 to |events|
      invariant Reached(events, keys, e, matched, next)
      invariant used == Members(matched) && Picks(applied, matched, effects)
    {
      var i := NextCandidate(keys, next, events[e]);
      if i < |keys| {
        ReachedByMatch(events, keys, e, matched, next);
        PicksNext(applied, matched, effects, i);
        applied, used, next, matched := applied + [effects[i]], used + {i}, i + 1, matched + [i];
      } else {
        ReachedBySkip(events, keys, e, matched, next);
      }
    }
  }

  /** The complement loop: the candidates that no event was matched to. */
  method IgnoredCandidates(used: set<nat>, n: nat) returns (ignored: seq<nat>)
    ensures ignored == Outside(used, n)
  {
    ignored := [];
    for i := 0 to n
      invariant ignored == Outside(used, i)
    {
      if i !in used {
        ignored := ignored + [i];
      }
    }
  }

  // ----- What the matching guarantees -----

  predicate Increasing(indexes: seq<nat>) {
    forall i, j :: 0 <= i < j < |indexes| ==> indexes[i] < indexes[j]
  }

  /** Matched indexes are strictly increasing. */
  lemma {:induction false} GreedyIncreases(events: seq<string>, keys: seq<string>, next: nat)
    requires next <= |keys|
    ensures Increasing(Greedy(events, keys, next))
    ensures forall k :: 0 <= k < |Greedy(events, keys, next)| ==> next <= Greedy(events, keys, next)[k] < |keys|
  {
    if events != [] {
      var i := FirstFrom(keys, next, events[0]);
      if i == |keys| {
        GreedyIncreases(events[1..], keys, next);
      } else {
        GreedyIncreases(events[1..], keys, i + 1);
      }
    }
  }

  /** Used and ignored candidates partition the log. */
  lemma {:induction false} OutsideIsComplement(used: set<nat>, n: nat, i: nat)
    ensures i in Outside(used, n) <==> i < n && i !in used
  {
    if n > 0 {
      OutsideIsComplement(used, n - 1, i);
    }
  }

  /** A placement of keys as a subsequence of the candidate keys, from an index on. */
  predicate Embeds(wanted: seq<string>, keys: seq<string>, at: seq<nat>, from: nat) {
    && |at| == |wanted| && Increasing(at)
    && forall k :: 0 <= k < |at| ==> from <= at[k] < |keys| && keys[at[k]] == wanted[k]
  }

  lemma EmbedsNext(wanted: seq<string>, keys: seq<string>, at: seq<nat>, next: nat)
    requires next <= |keys| && Embeds(wanted, keys, at, next) && wanted != []
    ensures var i := FirstFrom(keys, next, wanted[0]);
      i <= at[0] && i < |keys| && Embeds(wanted[1..], keys, at[1..], i + 1)
  {
  }

  /** A placement that is nowhere later than another one. */
  predicate NoLater(placed: seq<nat>, at: seq<nat>) {
    |placed| == |at| && forall k :: 0 <= k < |at| ==> placed[k] <= at[k]
  }

  lemma PlacedFirst(
    wanted: seq<string>, keys: seq<string>, at: seq<nat>, next: nat, i: nat, rest: seq<nat>)
    requires wanted != [] && next <= i < |keys| && keys[i] == wanted[0]
    requires Embeds(wanted, keys, at, next) && i <= at[0]
    requires Embeds(wanted[1..], keys, rest, i + 1) && NoLater(rest, at[1..])
    ensures Embeds(wanted, keys, [i] + rest, next) && NoLater([i] + rest, at)
  {
    var g := [i] + rest;
    forall k | 0 <= k < |g| ensures next <= g[k] < |keys| && keys[g[k]] == wanted[k] && g[k] <= at[k] {
      if k > 0 {
        assert g[k] == rest[k - 1] && wanted[k] == wanted[1..][k - 1] && at[k] == at[1..][k - 1];
      }
    }
  }

  /** If the events can be placed at all, the greedy matching places them all, nowhere later. */
  lemma {:induction false} GreedyIsLeftmost(wanted: seq<string>, keys: seq<string>, at: seq<nat>, next: nat)
    requires next <= |keys| && Embeds(wanted, keys, at, next)
    ensures Embeds(wanted, keys, Greedy(wanted, keys, next), next)
    ensures NoLater(Greedy(wanted, keys, next), at)
  {
    if wanted != [] {
      var i := FirstFrom(keys, next, wanted[0]);
      EmbedsNext(wanted, keys, at, next);
      GreedyIsLeftmost(wanted[1..], keys, at[1..], i + 1);
      GreedyStep(wanted, keys, next);
      PlacedFirst(wanted, keys, at, next, i, Greedy(wanted[1..], keys, i + 1));
    }
  }

  /** Events of an earlier history, whose keys no candidate has, are skipped. */
  lemma {:induction false} PriorIsSkipped(prior: seq<string>, events: seq<string>, keys: seq<string>, next: nat)
    requires next <= |keys| && forall p :: p in prior ==> p !in keys
    ensures Greedy(prior + events, keys, next) == Greedy(events, keys, next)
  {
    if prior == [] {
      assert prior + events == events;
    } else {
      assert (prior + events)[1..] == prior[1..] + events;
      assert prior[0] in prior;
      assert FirstFrom(keys, next, prior[0]) == |keys|;
      PriorIsSkipped(prior[1..], events, keys, next);
    }
  }

  /**
    Completeness: behind events of an earlier history, events whose keys form a subsequence of the candidate
    keys are all matched, in order, at strictly increasing indexes.
   */
  lemma MatchingComplete(prior: seq<string>, events: seq<string>, keys: seq<string>, at: seq<nat>)
    requires (forall p :: p in prior ==> p !in keys) && Embeds(events, keys, at, 0)
    ensures Embeds(events, keys, Greedy(prior + events, keys, 0), 0)
  {
    PriorIsSkipped(prior, events, keys, 0);
    GreedyIsLeftmost(events, keys, at, 0);
  }

  lemma {:induction false} GreedyAtMost(events: seq<string>, keys: seq<string>, next: nat)
    requires next <= |keys|
    ensures |Greedy(events, keys, next)| <= |events|
    ensures |Greedy(events, keys, next)| == |events| ==> Embeds(events, keys, Greedy(events, keys, next), next)
  {
    GreedyIncreases(events, keys, next);
    if events != [] {
      var i := FirstFrom(keys, next, events[0]);
      if i == |keys| {
        GreedyAtMost(events[1..], keys, next);
      } else {
        GreedyAtMost(events[1..], keys, i + 1);
        var g, rest := Greedy(events, keys, next), Greedy(events[1..], keys, i + 1);
        if |g| == |events| {
          forall k | 0 <= k < |g| ensures keys[g[k]] == events[k] {
            if k > 0 {
              assert g[k] == rest[k - 1] && events[k] == events[1..][k - 1];
            }
          }
        }
      }
    }
  }

  /** All events are matched if and only if their keys form a subsequence of the candidate keys. */
  lemma MatchesAllIffSubsequence(events: seq<string>, keys: seq<string>)
    ensures |Greedy(events, keys, 0)| == |events| <==> exists at :: Embeds(events, keys, at, 0)
  {
    GreedyAtMost(events, keys, 0);
    if at :| Embeds(events, keys, at, 0) {
      GreedyIsLeftmost(events, keys, at, 0);
    }
  }
}
