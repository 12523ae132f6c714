/**
  The canonical encoder (sections 3.2.2 and 3.2.3 of RFC 8785 on its value domain) and a parser that
  inverts it.
 */
module Canonical {
  import opened Options
  import opened Decimals
  import opened Jcs
  import opened Json

  // ----- The encoder -----

  function EscapeChar(c: char): string {
    if c == '"' || c == '\\' then ['\\', c] else [c]
  }

  /** The inside of a string literal: quotes and backslashes are escaped. */
  function Escape(s: string): string {
    if s == "" then "" else EscapeChar(s[0]) + Escape(s[1..])
  }

  function Quote(s: string): string {
    "\"" + (Escape(s) + "\"")
  }

  function Encode(v: Json): string
    decreases v, 1
  {
    match v
    case Null => "null"
    case Bool(b) => if b then "true" else "false"
    case Num(n) => PrintNumber(n)
    case Str(s) => Quote(s)
    case Arr(items) => "[" + (Elements(items) + "]")
    case Obj(fields) => "{" + (Members(v, SortedKeys(fields.Keys)) + "}")
  }

  function Elements(items: seq<Json>): string
    decreases items
  {
    if items == [] then ""
    else if |items| == 1 then Encode(items[0])
    else Encode(items[0]) + ("," + Elements(items[1..]))
  }

  function Member(v: Json, key: string): string
    requires v.Obj? && key in v.fields
    decreases v, 0, 0
  {
    Quote(key) + (":" + Encode(v.fields[key]))
  }

  function Members(v: Json, keys: seq<string>): string
    requires v.Obj? && forall k :: k in keys ==> k in v.fields
    decreases v, 0, |keys| + 1
  {
    if keys == [] then ""
    else if |keys| == 1 then Member(v, keys[0])
    else Member(v, keys[0]) + ("," + Members(v, keys[1..]))
  }

  // ----- The parser -----

  predicate Starts(s: string, c: char) {
    s != "" && s[0] == c
  }

  function ParseString(s: string): (r: Option<(string, string)>)
    ensures r.Some? ==> |r.value.1| < |s|
  {
    if s == "" then None
    else if s[0] == '"' then Some(("", s[1..]))
    else if s[0] == '\\' then
      if |s| >= 2 && (s[1] == '"' || s[1] == '\\') then
        var (t, rest) :- ParseString(s[2..]);
        Some(([s[1]] + t, rest))
      else None
    else
      var (t, rest) :- ParseString(s[1..]);
      Some(([s[0]] + t, rest))
  }

  /** How many characters at the front of s can belong to a number. */
  function NumberSpan(s: string): (n: nat)
    ensures n <= |s|
  {
    if s == "" || !IsNumberChar(s[0]) then 0 else 1 + NumberSpan(s[1..])
  }

  function ReadDecimal(s: string): Option<Decimal> {
    var l :- ReadLiteral(s);
    if IsZero(l) then None else Some(Normalize(l))
  }

  function ReadNumber(s: string): Option<Number> {
    if s == "0" then Some(Zero)
    else if s != "" && s[0] == '-' then
      var d :- ReadDecimal(s[1..]);
      Some(NonZero(true, d))
    else
      var d :- ReadDecimal(s);
      Some(NonZero(false, d))
  }

  function ParseNumber(s: string): (r: Option<(Json, string)>)
    ensures r.Some? ==> |r.value.1| < |s|
  {
    var n := NumberSpan(s);
    if n == 0 then None
    else
      var number :- ReadNumber(s[..n]);
      Some((Num(number), s[n..]))
  }

  /** Strips a fixed word off the front. */
  function ParseWord(s: string, word: string, v: Json): (r: Option<(Json, string)>)
    requires word != ""
    ensures r.Some? ==> |r.value.1| < |s|
  {
    if |word| <= |s| && s[..|word|] == word then Some((v, s[|word|..])) else None
  }

  function ParseValue(s: string): (r: Option<(Json, string)>)
    ensures r.Some? ==> |r.value.1| < |s|
    decreases |s|, 0
  {
    if s == "" then None
    else if IsDigit(s[0]) || s[0] == '-' then ParseNumber(s)
    else if s[0] == 'n' then ParseWord(s, "null", Null)
    else if s[0] == 't' then ParseWord(s, "true", Bool(true))
    else if s[0] == 'f' then ParseWord(s, "false", Bool(false))
    else if s[0] == '"' then
      var (t, rest) :- ParseString(s[1..]);
      Some((Str(t), rest))
    else if s[0] == '[' then
      if Starts(s[1..], ']') then Some((Arr([]), s[2..]))
      else
        var (items, rest) :- ParseElements(s[1..]);
        Some((Arr(items), rest))
    else if s[0] == '{' then
      if Starts(s[1..], '}') then Some((Obj(map[]), s[2..]))
      else
        var (members, rest) :- ParseMembers(s[1..]);
        Some((Obj(Fields(members)), rest))
    else None
  }

  /** The elements of a nonempty array, through the closing bracket. */
  function ParseElements(s: string): (r: Option<(seq<Json>, string)>)
    ensures r.Some? ==> |r.value.1| < |s|
    decreases |s|, 1
  {
    var (first, rest) :- ParseValue(s);
    if Starts(rest, ']') then Some(([first], rest[1..]))
    else if Starts(rest, ',') then
      var (others, rest') :- ParseElements(rest[1..]);
      Some(([first] + others, rest'))
    else None
  }

  function ParseMember(s: string): (r: Option<((string, Json), string)>)
    ensures r.Some? ==> |r.value.1| < |s|
    decreases |s|, 1
  {
    if !Starts(s, '"') then None
    else
      var (key, rest) :- ParseString(s[1..]);
      if !Starts(rest, ':') then None
      else
        var (v, rest') :- ParseValue(rest[1..]);
        Some(((key, v), rest'))
  }

  /** The members of a nonempty object, through the closing brace. */
  function ParseMembers(s: string): (r: Option<(seq<(string, Json)>, string)>)
    ensures r.Some? ==> |r.value.1| < |s|
    decreases |s|, 2
  {
    var (first, rest) :- ParseMember(s);
    if Starts(rest, '}') then Some(([first], rest[1..]))
    else if Starts(rest, ',') then
      var (others, rest') :- ParseMembers(rest[1..]);
      Some(([first] + others, rest'))
    else None
  }

  function Fields(members: seq<(string, Json)>): map<string, Json> {
    if members == [] then map[] else Fields(members[1..])[members[0].0 := members[0].1]
  }

  /** Reads one complete document. */
  function Parse(s: string): Option<Json> {
    var (v, rest) :- ParseValue(s);
    if rest == "" then Some(v) else None
  }

  // ----- The parser inverts the encoder -----

  lemma Regroup(a: string, b: string, c: string)
    ensures (a + b) + c == a + (b + c)
  {
  }

  lemma CharParses(c: char, tail: string, t: string, rest: string)
    requires ParseString(tail) == Some((t, rest))
    ensures ParseString(EscapeChar(c) + tail) == Some(([c] + t, rest))
  {
    assert (['\\', c] + tail)[2..] == tail && ([c] + tail)[1..] == tail;
  }

  lemma {:induction false} StringParses(t: string, rest: string)
    ensures ParseString(Escape(t) + ("\"" + rest)) == Some((t, rest))
  {
    if t == "" {
      assert Escape(t) + ("\"" + rest) == "\"" + rest && ("\"" + rest)[1..] == rest;
    } else {
      var end := "\"" + rest;
      StringParses(t[1..], rest);
      CharParses(t[0], Escape(t[1..]) + end, t[1..], rest);
      Regroup(EscapeChar(t[0]), Escape(t[1..]), end);
      assert t == [t[0]] + t[1..];
    }
  }

  /** What may follow a value: nothing that could prolong a number. */
  predicate Delimited(rest: string) {
    rest == "" || !IsNumberChar(rest[0])
  }

  lemma {:induction false} NumberSpans(s: string, rest: string)
    requires Delimited(rest) && forall i :: 0 <= i < |s| ==> IsNumberChar(s[i])
    ensures NumberSpan(s + rest) == |s|
  {
    if s == "" {
      assert s + rest == rest;
    } else {
      assert (s + rest)[1..] == s[1..] + rest;
      NumberSpans(s[1..], rest);
    }
  }

  lemma DecimalReads(d: Decimal)
    ensures ReadDecimal(Print(d)) == Some(d)
  {
    PrintReads(d);
    LayoutNormalizes(d);
  }

  lemma SignReads(text: string, d: Decimal)
    requires ReadDecimal(text) == Some(d) && text != "" && IsDigit(text[0]) && text != "0"
    ensures ReadNumber(text) == Some(NonZero(false, d)) && ReadNumber("-" + text) == Some(NonZero(true, d))
  {
    assert ("-" + text)[1..] == text;
  }

  lemma NumberReads(n: Number)
    ensures ReadNumber(PrintNumber(n)) == Some(n)
  {
    if n.NonZero? {
      PrintShape(n.magnitude);
      DecimalReads(n.magnitude);
      SignReads(Print(n.magnitude), n.magnitude);
    }
  }

  predicate NumberLike(s: string) {
    && s != "" && (IsDigit(s[0]) || s[0] == '-')
    && forall i :: 0 <= i < |s| ==> IsNumberChar(s[i])
  }

  lemma NumberShape(n: Number)
    ensures NumberLike(PrintNumber(n))
  {
    if n.NonZero? {
      PrintShape(n.magnitude);
    }
  }

  lemma NumberDispatch(s: string)
    requires s != "" && (IsDigit(s[0]) || s[0] == '-')
    ensures ParseValue(s) == ParseNumber(s)
  {
  }

  lemma TokenParses(s: string, text: string, n: Number, rest: string)
    requires text != "" && NumberSpan(s) == |text| && s[..|text|] == text && s[|text|..] == rest
    requires ReadNumber(text) == Some(n)
    ensures ParseNumber(s) == Some((Num(n), rest))
  {
  }

  lemma NumberParses(n: Number, rest: string)
    requires Delimited(rest)
    ensures ParseValue(PrintNumber(n) + rest) == Some((Num(n), rest))
  {
    var text := PrintNumber(n);
    NumberShape(n);
    NumberReads(n);
    NumberSpans(text, rest);
    NumberDispatch(text + rest);
    TokenParses(text + rest, text, n, rest);
  }

  lemma WordParses(word: string, rest: string, v: Json)
    requires word != ""
    ensures ParseWord(word + rest, word, v) == Some((v, rest))
  {
  }

  /** An encoding is not empty and does not start like a closing bracket or brace. */
  lemma EncodeHead(v: Json)
    ensures Encode(v) != "" && Encode(v)[0] != ']' && Encode(v)[0] != '}'
  {
    if v.Num? {
      NumberShape(v.n);
    }
  }

  lemma StringDispatch(tail: string, t: string, rest: string)
    requires ParseString(tail) == Some((t, rest))
    ensures ParseValue("\"" + tail) == Some((Str(t), rest))
  {
    assert ("\"" + tail)[1..] == tail;
  }

  lemma QuoteParses(t: string, rest: string)
    ensures ParseValue(Quote(t) + rest) == Some((Str(t), rest))
  {
    Regroup("\"", Escape(t) + "\"", rest);
    Regroup(Escape(t), "\"", rest);
    StringParses(t, rest);
    StringDispatch(Escape(t) + ("\"" + rest), t, rest);
  }

  lemma EmptyArrayDispatch(rest: string)
    ensures ParseValue("[" + ("]" + rest)) == Some((Arr([]), rest))
  {
    assert ("[" + ("]" + rest))[2..] == rest;
  }

  lemma ArrayBranch(s: string)
    requires s != "" && s[0] == '[' && !Starts(s[1..], ']') && ParseElements(s[1..]).Some?
    ensures ParseValue(s) == Some((Arr(ParseElements(s[1..]).value.0), ParseElements(s[1..]).value.1))
  {
  }

  lemma ArrayDispatch(tail: string, items: seq<Json>, rest: string)
    requires tail != "" && tail[0] != ']' && ParseElements(tail) == Some((items, rest))
    ensures ParseValue("[" + tail) == Some((Arr(items), rest))
  {
    assert ("[" + tail)[1..] == tail;
    ArrayBranch("[" + tail);
  }

  lemma EmptyObjectDispatch(rest: string)
    ensures ParseValue("{" + ("}" + rest)) == Some((Obj(map[]), rest))
  {
    assert ("{" + ("}" + rest))[2..] == rest;
  }

  lemma ObjectBranch(s: string)
    requires s != "" && s[0] == '{' && !Starts(s[1..], '}') && ParseMembers(s[1..]).Some?
    ensures ParseValue(s) == Some((Obj(Fields(ParseMembers(s[1..]).value.0)), ParseMembers(s[1..]).value.1))
  {
  }

  lemma ObjectDispatch(tail: string, members: seq<(string, Json)>, rest: string)
    requires tail != "" && tail[0] != '}' && ParseMembers(tail) == Some((members, rest))
    ensures ParseValue("{" + tail) == Some((Obj(Fields(members)), rest))
  {
    assert ("{" + tail)[1..] == tail;
    ObjectBranch("{" + tail);
  }

  /** The parser takes exactly one encoding off the front of any text that does not prolong it. */
  lemma {:induction false} ValueParses(v: Json, rest: string)
    requires Delimited(rest)
    ensures ParseValue(Encode(v) + rest) == Some((v, rest))
    decreases v, 3
  {
    match v
    case Null => WordParses("null", rest, v);
    case Bool(b) => WordParses(if b then "true" else "false", rest, v);
    case Num(n) => NumberParses(n, rest);
    case Str(s) => QuoteParses(s, rest);
    case Arr(items) => ArrayParses(v, rest);
    case Obj(fields) => ObjectParses(v, rest);
  }

  lemma {:induction false} ArrayParses(v: Json, rest: string)
    requires v.Arr?
    ensures ParseValue(Encode(v) + rest) == Some((v, rest))
    decreases v, 2
  {
    var tail := Elements(v.items) + ("]" + rest);
    Regroup("[", Elements(v.items) + "]", rest);
    Regroup(Elements(v.items), "]", rest);
    if v.items == [] {
      assert tail == "]" + rest;
      EmptyArrayDispatch(rest);
    } else {
      ElementsParse(v.items, rest);
      EncodeHead(v.items[0]);
      assert tail[0] == Encode(v.items[0])[0];
      ArrayDispatch(tail, v.items, rest);
    }
  }

  lemma LastElement(s: string, v: Json, rest: string)
    requires ParseValue(s) == Some((v, "]" + rest))
    ensures ParseElements(s) == Some(([v], rest))
  {
    assert ("]" + rest)[1..] == rest;
  }

  lemma NextElement(s: string, v: Json, tail: string, others: seq<Json>, rest: string)
    requires ParseValue(s) == Some((v, "," + tail)) && ParseElements(tail) == Some((others, rest))
    ensures ParseElements(s) == Some(([v] + others, rest))
  {
    assert ("," + tail)[1..] == tail;
  }

  lemma {:induction false} ElementsParse(items: seq<Json>, rest: string)
    requires items != []
    ensures ParseElements(Elements(items) + ("]" + rest)) == Some((items, rest))
    decreases items
  {
    var s := Elements(items) + ("]" + rest);
    if |items| == 1 {
      ValueParses(items[0], "]" + rest);
      LastElement(s, items[0], rest);
      assert items == [items[0]];
    } else {
      var tail := Elements(items[1..]) + ("]" + rest);
      Regroup(Encode(items[0]), "," + Elements(items[1..]), "]" + rest);
      Regroup(",", Elements(items[1..]), "]" + rest);
      ValueParses(items[0], "," + tail);
      ElementsParse(items[1..], rest);
      NextElement(s, items[0], tail, items[1..], rest);
      assert items == [items[0]] + items[1..];
    }
  }

  lemma {:induction false} ObjectParses(v: Json, rest: string)
    requires v.Obj?
    ensures ParseValue(Encode(v) + rest) == Some((v, rest))
    decreases v, 2
  {
    var keys := SortedKeys(v.fields.Keys);
    var tail := Members(v, keys) + ("}" + rest);
    Regroup("{", Members(v, keys) + "}", rest);
    Regroup(Members(v, keys), "}", rest);
    if keys == [] {
      assert tail == "}" + rest && v.fields == map[];
      EmptyObjectDispatch(rest);
    } else {
      MembersParse(v, keys, rest);
      assert tail[0] == '"';
      ObjectDispatch(tail, Pairs(v, keys), rest);
      FieldsOfPairs(v, keys);
      assert v.fields == map k | k in keys :: v.fields[k];
    }
  }

  function Pairs(v: Json, keys: seq<string>): seq<(string, Json)>
    requires v.Obj? && forall k :: k in keys ==> k in v.fields
  {
    if keys == [] then [] else [(keys[0], v.fields[keys[0]])] + Pairs(v, keys[1..])
  }

  lemma {:induction false} FieldsOfPairs(v: Json, keys: seq<string>)
    requires v.Obj? && forall k :: k in keys ==> k in v.fields
    ensures Fields(Pairs(v, keys)) == map k | k in keys :: v.fields[k]
  {
    if keys != [] {
      FieldsOfPairs(v, keys[1..]);
    }
  }

  lemma MemberDispatch(tail: string, key: string, value: string, v: Json, rest: string)
    requires ParseString(tail) == Some((key, ":" + value)) && ParseValue(value) == Some((v, rest))
    ensures ParseMember("\"" + tail) == Some(((key, v), rest))
  {
    assert ("\"" + tail)[1..] == tail;
    assert (":" + value)[1..] == value;
  }

  lemma MemberText(key: string, value: string, rest: string)
    ensures ("\"" + (key + "\"")) + (":" + value) + rest == "\"" + (key + ("\"" + (":" + (value + rest))))
  {
  }

  lemma {:induction false} MemberParses(v: Json, key: string, rest: string)
    requires v.Obj? && key in v.fields && Delimited(rest)
    ensures ParseMember(Member(v, key) + rest) == Some(((key, v.fields[key]), rest))
    decreases v, 0
  {
    var value := Encode(v.fields[key]) + rest;
    var tail := Escape(key) + ("\"" + (":" + value));
    MemberText(Escape(key), Encode(v.fields[key]), rest);
    StringParses(key, ":" + value);
    ValueParses(v.fields[key], rest);
    MemberDispatch(tail, key, value, v.fields[key], rest);
  }

  lemma LastMember(s: string, m: (string, Json), rest: string)
    requires ParseMember(s) == Some((m, "}" + rest))
    ensures ParseMembers(s) == Some(([m], rest))
  {
    assert ("}" + rest)[1..] == rest;
  }

  lemma NextMember(s: string, m: (string, Json), tail: string, others: seq<(string, Json)>, rest: string)
    requires ParseMember(s) == Some((m, "," + tail)) && ParseMembers(tail) == Some((others, rest))
    ensures ParseMembers(s) == Some(([m] + others, rest))
  {
    assert ("," + tail)[1..] == tail;
  }

  lemma {:induction false} MembersParse(v: Json, keys: seq<string>, rest: string)
    requires v.Obj? && keys != [] && forall k :: k in keys ==> k in v.fields
    ensures ParseMembers(Members(v, keys) + ("}" + rest)) == Some((Pairs(v, keys), rest))
    decreases v, 1, |keys|
  {
    var s := Members(v, keys) + ("}" + rest);
    var first := (keys[0], v.fields[keys[0]]);
    if |keys| == 1 {
      MemberParses(v, keys[0], "}" + rest);
      LastMember(s, first, rest);
      assert keys[1..] == [] && Pairs(v, keys[1..]) == [] && Pairs(v, keys) == [first];
      assert s == Member(v, keys[0]) + ("}" + rest);
    } else {
      var tail := Members(v, keys[1..]) + ("}" + rest);
      Regroup(Member(v, keys[0]), "," + Members(v, keys[1..]), "}" + rest);
      Regroup(",", Members(v, keys[1..]), "}" + rest);
      MemberParses(v, keys[0], "," + tail);
      MembersParse(v, keys[1..], rest);
      NextMember(s, first, tail, Pairs(v, keys[1..]), rest);
    }
  }

  /** The round trip: every value is read back from its canonical text. */
  lemma RoundTrip(v: Json)
    ensures Parse(Encode(v)) == Some(v)
  {
    ValueParses(v, "");
    assert Encode(v) + "" == Encode(v);
  }

  /** Canonical texts are equal exactly for equal values. */
  lemma EncodeInjective(v: Json, w: Json)
    ensures Encode(v) == Encode(w) <==> v == w
  {
    RoundTrip(v);
    RoundTrip(w);
  }
}
