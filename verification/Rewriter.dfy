/**
  The memoised rewriter of historical chains: links by leaf hash and index become links by event id, and
  every affected signature is made anew.
 */
module Rewriter {
  import opened Options
  import opened Json
  import opened Canonical
  import opened Events

  /**
    What the rewriter is given: reading JSON text, the historical entries by leaf hash, the event id of a
    payload, and the signature of a key, by its id, over a text.
   */
  datatype Env = Env(
    loads: string -> Option<Json>,
    originals: map<string, string>,
    eventId: Object -> string,
    keys: set<string>,
    sign: (string, string) -> string)

  // ----- One entry -----

  function Before(s: string, stop: char): string {
    if s == "" || s[0] == stop then "" else [s[0]] + Before(s[1..], stop)
  }

  const OTHER: string := "other-instance"

  /** An entry whose stream is its domain moves to another stream. */
  function Moved(body: Object): Result<Object> {
    var stream :- Field(body, "stream_id");
    var fqdn :- Field(body, "fqdn");
    if !PyEq(stream, fqdn) then Ok(body)
    else
      var lr :- Field(body, "lr");
      if lr.Str? then Ok(body["stream_id" := Str(OTHER)]["lr" := Str(Before(lr.s, '#') + ("#" + OTHER))])
      else Raised(Crash)
  }

  /** One signature object: the placeholder stays, anything else is signed anew. */
  function Signed(env: Env, signature: Json, text: string): Result<Json> {
    if !signature.Obj? || "sig" !in signature.fields then Raised(Crash)
    else if signature.fields["sig"] == Str("AA") then Ok(signature)
    else
      var kid :- Field(signature.fields, "kid");
      if kid.Str? && kid.s in env.keys then Ok(Obj(signature.fields["sig" := Str(env.sign(kid.s, text))]))
      else Raised(Crash)
  }

  /** All signature objects of an entry. */
  function Resigned(env: Env, sigs: Object, text: string): Result<Object> {
    if forall k :: k in sigs ==> Signed(env, sigs[k], text).Ok? then
      Ok(map k | k in sigs :: Signed(env, sigs[k], text).value)
    else Raised(Crash)
  }

  method ResignAll(env: Env, sigs: Object, text: string) returns (r: Result<Object>)
    ensures r == Resigned(env, sigs, text)
  {
    var out, left := sigs, sigs.Keys;
    while left != {}
      invariant left <= sigs.Keys && out.Keys == sigs.Keys
      invariant forall k :: k in sigs && k !in left ==> Signed(env, sigs[k], text) == Ok(out[k])
      invariant forall k :: k in left ==> out[k] == sigs[k]
      decreases left
    {
      var k :| k in left;
      var signature := Signed(env, out[k], text);
      if signature.Raised? {
        return Raised(Crash);
      }
      out, left := out[k := signature.value], left - {k};
    }
    assert out == map k | k in sigs :: Signed(env, sigs[k], text).value;
    return Ok(out);
  }

  /** The new link, once the predecessor is corrected. */
  function Relinked(env: Env, body: Object, predecessor: string): Result<Object> {
    match env.loads(predecessor)
    case Some(Obj(entry)) =>
      if Admissible(Obj(Payload(entry))) && "prev_index" in body then
        Ok((body - {"prev_leaf_hash", "prev_index"})["prev_event_id" := Str(env.eventId(Payload(entry)))])
      else Raised(Crash)
    case _ => Raised(Crash)
  }

  /** The rest of the correction: stream, signatures, encoding. */
  function Finished(env: Env, entry: Object, body: Object): Result<string> {
    var moved :- Moved(body);
    var sigs :- Field(entry, "sigs");
    if !sigs.Obj? then Raised(Crash)
    else
      var resigned :- Resigned(env, sigs.fields, Encode(Obj(moved)));
      var out := Obj(moved["sigs" := Obj(resigned)]);
      if Admissible(out) then Ok(Encode(out)) else Raised(Crash)
  }

  // ----- The chain -----

  /** The historical predecessor of an entry. */
  function Linked(env: Env, raw: string): Option<string> {
    match env.loads(raw)
    case Some(Obj(entry)) =>
      var link := Get(Payload(entry), "prev_leaf_hash");
      if link.Some? && link.value.Str? && link.value.s in env.originals then Some(env.originals[link.value.s])
      else None
    case _ => None
  }

  /** Links are acyclic: every predecessor has a lower rank. */
  ghost predicate Acyclic(env: Env, rank: string -> nat) {
    forall raw: string :: Descends(env, rank, raw)
  }

  predicate Descends(env: Env, rank: string -> nat, raw: string) {
    Linked(env, raw).Some? ==> rank(Linked(env, raw).value) < rank(raw)
  }

  /** The correction of an entry as a pure recursion along its links. */
  ghost function Corrected(env: Env, rank: string -> nat, raw: string): Result<string>
    requires Acyclic(env, rank)
    decreases rank(raw)
  {
    match env.loads(raw)
    case None => Ok(raw)
    case Some(Obj(entry)) =>
      var body :- Relink(env, rank, raw, Payload(entry));
      Finished(env, entry, body)
    case Some(_) => Raised(Crash)
  }

  ghost function Relink(env: Env, rank: string -> nat, raw: string, body: Object): Result<Object>
    requires Acyclic(env, rank)
    decreases rank(raw), 0
  {
    if "prev_leaf_hash" !in body then Ok(body)
    else if Linked(env, raw).None? then Raised(Crash)
    else
      assert Descends(env, rank, raw);
      var predecessor :- Corrected(env, rank, Linked(env, raw).value);
      Relinked(env, body, predecessor)
  }

  class ChainRewriter {
    const env: Env
    ghost const rank: string -> nat
    var corrected: map<string, string>

    constructor (env: Env, ghost rank: string -> nat)
      requires Acyclic(env, rank)
      ensures Valid() && this.env == env && this.rank == rank && corrected == map[]
    {
      this.env, this.rank, corrected := env, rank, map[];
    }

    /** Every remembered text is the correction of its entry. */
    ghost predicate Valid()
      reads this
    {
      && Acyclic(env, rank)
      && forall raw :: raw in corrected ==> Corrected(env, rank, raw) == Ok(corrected[raw])
    }

    /** In whatever state earlier calls left the memo, the result is the pure correction. */
    method Correct(raw: string) returns (r: Result<string>)
      requires Valid()
      modifies this`corrected
      ensures Valid() && r == Corrected(env, rank, raw)
      ensures forall k :: k in old(corrected) ==> k in corrected && corrected[k] == old(corrected)[k]
      ensures if env.loads(raw).None? then corrected == old(corrected) else r.Ok? ==> raw in corrected
      decreases rank(raw)
    {
      if raw in corrected {
        return Ok(corrected[raw]);
      }
      var read := env.loads(raw);
      if read.None? {
        return Ok(raw);
      }
      if !read.value.Obj? {
        return Raised(Crash);
      }
      var entry := read.value.fields;
      var body := Payload(entry);
      if "prev_leaf_hash" in body {
        var original := Linked(env, raw);
        if original.None? {
          return Raised(Crash);
        }
        assert Descends(env, rank, raw);
        var predecessor := Correct(original.value);
        if predecessor.Raised? {
          return predecessor;
        }
        var relinked := Relinked(env, body, predecessor.value);
        if relinked.Raised? {
          return Raised(Crash);
        }
        body := relinked.value;
      }
      assert Relink(env, rank, raw, Payload(entry)) == Ok(body);
      r := Finish(entry, body);
      if r.Ok? {
        corrected := corrected[raw := r.value];
      }
    }

    method Finish(entry: Object, body: Object) returns (r: Result<string>)
      ensures r == Finished(env, entry, body)
    {
      var moved, sigs := Moved(body), Field(entry, "sigs");
      if moved.Raised? || sigs.Raised? || !sigs.value.Obj? {
        return Raised(Crash);
      }
      var resigned := ResignAll(env, sigs.value.fields, Encode(Obj(moved.value)));
      if resigned.Raised? {
        return Raised(Crash);
      }
      var out := Obj(moved.value["sigs" := Obj(resigned.value)]);
      return if Admissible(out) then Ok(Encode(out)) else Raised(Crash);
    }

    /** A list of entries, each corrected as on its own. */
    method CorrectAll(raws: seq<string>) returns (r: Result<seq<string>>)
      requires Valid()
      modifies this`corrected
      ensures Valid()
      ensures r.Ok? ==> CorrectedAll(env, rank, raws, r.value)
      ensures r.Raised? ==> exists i :: 0 <= i < |raws| && Corrected(env, rank, raws[i]).Raised?
    {
      var texts: seq<string> := [];
      for i := 0 to |raws|
        invariant Valid() && CorrectedAll(env, rank, raws[..i], texts)
      {
        var text := Correct(raws[i]);
        if text.Raised? {
          return Raised(text.error);
        }
        texts := texts + [text.value];
      }
      assert raws[..|raws|] == raws;
      return Ok(texts);
    }
  }

  ghost predicate CorrectedAll(env: Env, rank: string -> nat, raws: seq<string>, texts: seq<string>)
    requires Acyclic(env, rank)
  {
    |texts| == |raws| && forall i :: 0 <= i < |raws| ==> Corrected(env, rank, raws[i]) == Ok(texts[i])
  }

  /** The rank is there for termination only. */
  lemma {:induction false} RankIsIrrelevant(env: Env, rank: string -> nat, other: string -> nat, raw: string)
    requires Acyclic(env, rank) && Acyclic(env, other)
    ensures Corrected(env, rank, raw) == Corrected(env, other, raw)
    decreases rank(raw)
  {
    assert Descends(env, rank, raw);
    if Linked(env, raw).Some? {
      RankIsIrrelevant(env, rank, other, Linked(env, raw).value);
    }
  }

  // ----- What the correction does to an entry -----

  /** Reading takes back encoding. */
  ghost predicate Reads(env: Env) {
    forall v: Json :: ReadsBack(env, v)
  }

  predicate ReadsBack(env: Env, v: Json) {
    Admissible(v) ==> env.loads(Encode(v)) == Some(v)
  }

  /** The canonical parser reads. */
  lemma ParseReads(env: Env)
    requires env.loads == Parse
    ensures Reads(env)
  {
    forall v: Json ensures ReadsBack(env, v) {
      RoundTrip(v);
    }
  }

  predicate IsEntry(env: Env, text: string) {
    env.loads(text).Some? && env.loads(text).value.Obj?
  }

  /** The payload of an entry, from its text. */
  function BodyOf(env: Env, text: string): Object
    requires IsEntry(env, text)
  {
    Payload(env.loads(text).value.fields)
  }

  /** A finished text is the encoding of an entry with the moved payload. */
  lemma FinishedText(env: Env, entry: Object, body: Object)
    requires Finished(env, entry, body).Ok?
    ensures Moved(body).Ok? && Field(entry, "sigs").Ok? && entry["sigs"].Obj?
    ensures var moved := Moved(body).value;
      var resigned := Resigned(env, entry["sigs"].fields, Encode(Obj(moved)));
      && resigned.Ok?
      && var out := Obj(moved["sigs" := Obj(resigned.value)]);
         Admissible(out) && Finished(env, entry, body).value == Encode(out)
  {
  }

  lemma PayloadOfSigned(moved: Object, sigs: Json)
    requires "sigs" !in moved && Admissible(Obj(moved["sigs" := sigs]))
    ensures Payload(moved["sigs" := sigs]) == moved && Admissible(Obj(moved))
  {
    var out := moved["sigs" := sigs];
    forall k | k in moved ensures Printable(k) && Admissible(moved[k]) {
      assert k in out && out[k] == moved[k];
    }
  }

  lemma FinishedBody(env: Env, entry: Object, body: Object)
    requires Reads(env) && "sigs" !in body && Finished(env, entry, body).Ok?
    ensures var text := Finished(env, entry, body).value;
      && Moved(body).Ok? && IsEntry(env, text) && BodyOf(env, text) == Moved(body).value
      && Admissible(Obj(BodyOf(env, text)))
  {
    FinishedText(env, entry, body);
    var moved := Moved(body).value;
    MovedFields(body);
    assert Get(moved, "sigs") == None;
    var resigned := Obj(Resigned(env, entry["sigs"].fields, Encode(Obj(moved))).value);
    PayloadOfSigned(moved, resigned);
    assert ReadsBack(env, Obj(moved["sigs" := resigned]));
  }

  /** A corrected entry has the relinked payload of its original, moved if need be. */
  lemma CorrectedBody(env: Env, rank: string -> nat, raw: string)
    requires Reads(env) && Acyclic(env, rank) && IsEntry(env, raw) && Corrected(env, rank, raw).Ok?
    ensures var text, body := Corrected(env, rank, raw).value, Relink(env, rank, raw, BodyOf(env, raw));
      && IsEntry(env, text) && body.Ok? && Moved(body.value) == Ok(BodyOf(env, text))
      && Admissible(Obj(BodyOf(env, text)))
  {
    var entry := env.loads(raw).value.fields;
    var body := Relink(env, rank, raw, Payload(entry)).value;
    if "prev_leaf_hash" in Payload(entry) {
      RelinkedFields(env, Payload(entry), Corrected(env, rank, Linked(env, raw).value).value);
    }
    FinishedBody(env, entry, body);
  }

  lemma RelinkedFields(env: Env, body: Object, predecessor: string)
    requires Relinked(env, body, predecessor).Ok?
    ensures IsEntry(env, predecessor)
    ensures var out := Relinked(env, body, predecessor).value;
      && Get(out, "prev_event_id") == Some(Str(env.eventId(BodyOf(env, predecessor))))
      && "prev_leaf_hash" !in out && "prev_index" !in out
      && forall k :: k !in LINK_FIELDS ==> Get(out, k) == Get(body, k)
  {
  }

  const LINK_FIELDS: set<string> := {"prev_leaf_hash", "prev_index", "prev_event_id"}

  const STREAM_FIELDS: set<string> := {"stream_id", "lr"}

  /** Moving touches the stream alone. */
  lemma MovedFields(body: Object)
    requires Moved(body).Ok?
    ensures forall k :: k !in STREAM_FIELDS ==> Get(Moved(body).value, k) == Get(body, k)
  {
  }

  /** Every link by leaf hash and index becomes a link to the event id of the corrected predecessor. */
  lemma LinkIsEventId(env: Env, rank: string -> nat, raw: string)
    requires Reads(env) && Acyclic(env, rank) && Corrected(env, rank, raw).Ok?
    requires IsEntry(env, raw) && "prev_leaf_hash" in BodyOf(env, raw)
    ensures Linked(env, raw).Some? && Corrected(env, rank, Linked(env, raw).value).Ok?
    ensures NamesEvent(env, Corrected(env, rank, raw).value, Corrected(env, rank, Linked(env, raw).value).value)
  {
    CorrectedBody(env, rank, raw);
    var body := BodyOf(env, raw);
    var predecessor := Corrected(env, rank, Linked(env, raw).value).value;
    RelinkedNames(env, body, predecessor);
  }

  /** An entry that links to another one by its event id, and in no other way. */
  predicate NamesEvent(env: Env, text: string, predecessor: string) {
    && IsEntry(env, text) && IsEntry(env, predecessor)
    && NamesId(BodyOf(env, text), env.eventId(BodyOf(env, predecessor)))
  }

  predicate NamesId(body: Object, id: string) {
    Is(Get(body, "prev_event_id"), id) && "prev_leaf_hash" !in body && "prev_index" !in body
  }

  lemma RelinkedNames(env: Env, body: Object, predecessor: string)
    requires Relinked(env, body, predecessor).Ok? && Moved(Relinked(env, body, predecessor).value).Ok?
    ensures IsEntry(env, predecessor)
    ensures NamesId(Moved(Relinked(env, body, predecessor).value).value, env.eventId(BodyOf(env, predecessor)))
  {
    RelinkedFields(env, body, predecessor);
    var relinked := Relinked(env, body, predecessor).value;
    MovedFields(relinked);
    assert Get(Moved(relinked).value, "prev_leaf_hash") == None && Get(Moved(relinked).value, "prev_index") == None;
  }

  /** Nothing but links and streams changes, and an entry without a link by leaf hash keeps its other links. */
  lemma OtherFieldsKept(env: Env, rank: string -> nat, raw: string, k: string)
    requires Reads(env) && Acyclic(env, rank) && Corrected(env, rank, raw).Ok? && IsEntry(env, raw)
    requires k !in STREAM_FIELDS && (k in LINK_FIELDS ==> "prev_leaf_hash" !in BodyOf(env, raw))
    ensures var text := Corrected(env, rank, raw).value;
      IsEntry(env, text) && Get(BodyOf(env, text), k) == Get(BodyOf(env, raw), k)
  {
    CorrectedBody(env, rank, raw);
    var body := BodyOf(env, raw);
    if "prev_leaf_hash" in body {
      RelinkedFields(env, body, Corrected(env, rank, Linked(env, raw).value).value);
    }
    MovedFields(Relink(env, rank, raw, body).value);
  }

  // ----- What it does to a chain -----

  predicate LinksBack(env: Env, raws: seq<string>, i: nat)
    requires i < |raws|
  {
    && IsEntry(env, raws[i])
    && if i == 0 then "prev_leaf_hash" !in BodyOf(env, raws[0]) else Linked(env, raws[i]) == Some(raws[i - 1])
  }

  /** Entries that link, each to the one before it, by leaf hash. */
  predicate HashChain(env: Env, raws: seq<string>) {
    forall i :: 0 <= i < |raws| ==> LinksBack(env, raws, i)
  }

  predicate NamesBack(env: Env, texts: seq<string>, i: nat)
    requires i < |texts|
  {
    if i == 0 then IsEntry(env, texts[0]) && "prev_leaf_hash" !in BodyOf(env, texts[0])
    else NamesEvent(env, texts[i], texts[i - 1])
  }

  /** Entries that link, each to the one before it, by event id. */
  predicate IdChain(env: Env, texts: seq<string>) {
    forall i :: 0 <= i < |texts| ==> NamesBack(env, texts, i)
  }

  /** A chain by leaf hashes becomes a chain by event ids, entry for entry. */
  lemma ChainKept(env: Env, rank: string -> nat, raws: seq<string>, texts: seq<string>)
    requires Reads(env) && Acyclic(env, rank) && HashChain(env, raws) && CorrectedAll(env, rank, raws, texts)
    ensures IdChain(env, texts)
  {
    forall i | 0 <= i < |texts| ensures NamesBack(env, texts, i) {
      assert LinksBack(env, raws, i);
      if i == 0 {
        OtherFieldsKept(env, rank, raws[0], "prev_leaf_hash");
        assert Get(BodyOf(env, texts[0]), "prev_leaf_hash") == None;
      } else {
        LinkIsEventId(env, rank, raws[i]);
      }
    }
  }

  /** The same content, whatever the predecessor. */
  predicate SameContent(x: Object, y: Object) {
    x - LINK_FIELDS == y - LINK_FIELDS
  }

  lemma RelinkedSame(env: Env, x: Object, y: Object, p: string, q: string)
    requires Relinked(env, x, p).Ok? && Relinked(env, y, q).Ok?
    requires IsEntry(env, p) && IsEntry(env, q) && BodyOf(env, p) == BodyOf(env, q)
    requires SameContent(x, y)
    ensures Relinked(env, x, p) == Relinked(env, y, q)
  {
    var a, b := Relinked(env, x, p).value, Relinked(env, y, q).value;
    assert a == (x - LINK_FIELDS)["prev_event_id" := a["prev_event_id"]];
    assert b == (y - LINK_FIELDS)["prev_event_id" := b["prev_event_id"]];
  }

  /** Chains that start from the same payload and link entries of the same content. */
  ghost predicate Alike(env: Env, rank: string -> nat, x: string, y: string)
    requires Acyclic(env, rank)
    decreases rank(x)
  {
    && IsEntry(env, x) && IsEntry(env, y)
    && assert Descends(env, rank, x);
       if Linked(env, x).Some? && Linked(env, y).Some? then
         SameContent(BodyOf(env, x), BodyOf(env, y)) && Alike(env, rank, Linked(env, x).value, Linked(env, y).value)
       else "prev_leaf_hash" !in BodyOf(env, x) && BodyOf(env, x) == BodyOf(env, y)
  }

  lemma CopyStep(env: Env, rank: string -> nat, x: string, y: string)
    requires Reads(env) && Acyclic(env, rank) && IsEntry(env, x) && IsEntry(env, y)
    requires Corrected(env, rank, x).Ok? && Corrected(env, rank, y).Ok?
    requires Relink(env, rank, x, BodyOf(env, x)) == Relink(env, rank, y, BodyOf(env, y))
    ensures SameBody(env, Corrected(env, rank, x).value, Corrected(env, rank, y).value)
  {
    CorrectedBody(env, rank, x);
    CorrectedBody(env, rank, y);
  }

  predicate SameBody(env: Env, s: string, t: string) {
    IsEntry(env, s) && IsEntry(env, t) && BodyOf(env, s) == BodyOf(env, t)
  }

  /** The predecessor of a linked entry decides its link. */
  lemma RelinkOf(env: Env, rank: string -> nat, raw: string)
    requires Reads(env) && Acyclic(env, rank) && IsEntry(env, raw) && Corrected(env, rank, raw).Ok?
    requires Linked(env, raw).Some?
    ensures Corrected(env, rank, Linked(env, raw).value).Ok?
    ensures Relink(env, rank, raw, BodyOf(env, raw))
         == Relinked(env, BodyOf(env, raw), Corrected(env, rank, Linked(env, raw).value).value)
    ensures Relink(env, rank, raw, BodyOf(env, raw)).Ok?
  {
    CorrectedBody(env, rank, raw);
  }

  lemma LinkedCopies(env: Env, rank: string -> nat, x: string, y: string, p: string, q: string)
    requires Reads(env) && Acyclic(env, rank) && IsEntry(env, x) && IsEntry(env, y)
    requires Corrected(env, rank, x).Ok? && Corrected(env, rank, y).Ok?
    requires Linked(env, x).Some? && Corrected(env, rank, Linked(env, x).value) == Ok(p)
    requires Linked(env, y).Some? && Corrected(env, rank, Linked(env, y).value) == Ok(q)
    requires SameBody(env, p, q) && SameContent(BodyOf(env, x), BodyOf(env, y))
    ensures SameBody(env, Corrected(env, rank, x).value, Corrected(env, rank, y).value)
  {
    RelinkOf(env, rank, x);
    RelinkOf(env, rank, y);
    RelinkedSame(env, BodyOf(env, x), BodyOf(env, y), p, q);
    CopyStep(env, rank, x, y);
  }

  /**
    Chains of the same content, but for signatures and for the leaf hashes that these change, become chains of
    the same payloads: the corrected entries have the same event ids.
   */
  lemma {:induction false} CopiesMerge(env: Env, rank: string -> nat, x: string, y: string)
    requires Reads(env) && Acyclic(env, rank) && Alike(env, rank, x, y)
    requires Corrected(env, rank, x).Ok? && Corrected(env, rank, y).Ok?
    ensures SameBody(env, Corrected(env, rank, x).value, Corrected(env, rank, y).value)
    decreases rank(x)
  {
    assert Descends(env, rank, x);
    if Linked(env, x).Some? && Linked(env, y).Some? {
      var p, q := Linked(env, x).value, Linked(env, y).value;
      RelinkOf(env, rank, x);
      RelinkOf(env, rank, y);
      CopiesMerge(env, rank, p, q);
      LinkedCopies(env, rank, x, y, Corrected(env, rank, p).value, Corrected(env, rank, q).value);
    } else {
      CopyStep(env, rank, x, y);
    }
  }

  // ----- Correcting twice -----

  lemma {:induction false} BeforeAgain(s: string, stop: char, tail: string)
    ensures Before(Before(s, stop) + ([stop] + tail), stop) == Before(s, stop)
  {
    if s != "" && s[0] != stop {
      BeforeAgain(s[1..], stop, tail);
      assert (Before(s, stop) + ([stop] + tail))[1..] == Before(s[1..], stop) + ([stop] + tail);
    }
  }

  lemma MovedAgain(body: Object)
    requires Moved(body).Ok?
    ensures Moved(Moved(body).value) == Moved(body)
  {
    var moved := Moved(body).value;
    if moved != body {
      BeforeAgain(body["lr"].s, '#', OTHER);
      assert "#" + OTHER == ['#'] + OTHER;
      assert moved["stream_id" := Str(OTHER)]["lr" := moved["lr"]] == moved;
    }
  }

  lemma SignedAgain(env: Env, signature: Json, text: string)
    requires Signed(env, signature, text).Ok?
    ensures Signed(env, Signed(env, signature, text).value, text) == Signed(env, signature, text)
  {
    var out := Signed(env, signature, text).value.fields;
    assert out["sig" := out["sig"]] == out;
  }

  lemma ResignedAgain(env: Env, sigs: Object, text: string)
    requires Resigned(env, sigs, text).Ok?
    ensures Resigned(env, Resigned(env, sigs, text).value, text) == Resigned(env, sigs, text)
  {
    var out := Resigned(env, sigs, text).value;
    forall k | k in out ensures Signed(env, out[k], text) == Ok(out[k]) {
      SignedAgain(env, sigs[k], text);
    }
    assert (map k | k in out :: Signed(env, out[k], text).value) == out;
  }

  /** A corrected entry is correct: correcting it again gives the same text. */
  lemma CorrectedAgain(env: Env, rank: string -> nat, raw: string)
    requires Reads(env) && Acyclic(env, rank) && IsEntry(env, raw) && Corrected(env, rank, raw).Ok?
    ensures var text := Corrected(env, rank, raw).value;
      Corrected(env, rank, text) == Ok(text)
  {
    var entry := env.loads(raw).value.fields;
    var body := Relink(env, rank, raw, Payload(entry)).value;
    CorrectedBody(env, rank, raw);
    var moved := Moved(body).value;
    var sigs := entry["sigs"].fields;
    var resigned := Resigned(env, sigs, Encode(Obj(moved))).value;
    MovedAgain(body);
    ResignedAgain(env, sigs, Encode(Obj(moved)));
    var out := moved["sigs" := Obj(resigned)];
    if "prev_leaf_hash" in BodyOf(env, raw) {
      LinkIsEventId(env, rank, raw);
    } else {
      OtherFieldsKept(env, rank, raw, "prev_leaf_hash");
      assert Get(moved, "prev_leaf_hash") == None;
    }
    assert ReadsBack(env, Obj(out)) && Payload(out) == moved;
    assert Relink(env, rank, Encode(Obj(out)), moved) == Ok(moved);
  }
}
