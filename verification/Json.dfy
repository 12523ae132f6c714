/** JSON values as the event code sees them, and the order of their keys. */
module Json {
  import opened Decimals
  import opened Jcs

  /** A number by its value: Python compares integers and floats that way. */
  datatype Number = Zero | NonZero(negative: bool, magnitude: Decimal)

  /** Dictionaries are maps: equality does not see insertion order. */
  datatype Json =
    | Null
    | Bool(b: bool)
    | Num(n: Number)
    | Str(s: string)
    | Arr(items: seq<Json>)
    | Obj(fields: map<string, Json>)

  predicate Printable(s: string) {
    forall i :: 0 <= i < |s| ==> ' ' <= s[i] <= '~'
  }

  /** The encoder's assertion: printable ASCII strings and keys only, all the way down. */
  predicate Admissible(v: Json) {
    match v
    case Str(s) => Printable(s)
    case Arr(items) => forall i :: 0 <= i < |items| ==> Admissible(items[i])
    case Obj(fields) => forall k :: k in fields ==> Printable(k) && Admissible(fields[k])
    case _ => true
  }

  function FloatValue(f: Float): Number {
    if IsZero(f.magnitude) then Zero else NonZero(f.negative, Normalize(f.magnitude))
  }

  function IntLiteral(n: nat): Float {
    Float(false, Literal(Decimals.Str(n), "", 0))
  }

  function IntValue(n: nat): Number {
    FloatValue(IntLiteral(n))
  }

  function PrintNumber(n: Number): string {
    match n
    case Zero => "0"
    case NonZero(negative, magnitude) => if negative then "-" + Print(magnitude) else Print(magnitude)
  }

  const MAX_SAFE_INTEGER := 9007199254740991

  lemma MaxSafeIntegerIsShort()
    ensures MAX_SAFE_INTEGER < Pow10(21)
  {
    assert Pow10(8) == 100000000;
    Pow10Adds(8, 8);
    Pow10Adds(16, 5);
    assert Pow10(5) == 100000;
  }

  /** The printer by value is the float branch of the encoder. */
  lemma PrintNumberIsJcs(f: Float)
    ensures PrintNumber(FloatValue(f)) == JcsNumber(f)
  {
  }

  /** The printer by value is the integer branch of the encoder, on the integers that it admits. */
  lemma PrintNumberIsStr(n: nat)
    requires n <= MAX_SAFE_INTEGER
    ensures PrintNumber(IntValue(n)) == Decimals.Str(n)
  {
    MaxSafeIntegerIsShort();
    IntegerPrintsAsItself(n);
    PrintNumberIsJcs(IntLiteral(n));
  }

  // ----- The order of keys -----

  /** Python's order on strings, by character codes. */
  predicate Leq(a: string, b: string) {
    a == "" || (b != "" && (a[0] < b[0] || (a[0] == b[0] && Leq(a[1..], b[1..]))))
  }

  lemma {:induction false} LeqTotal(a: string, b: string)
    ensures Leq(a, b) || Leq(b, a)
  {
    if a != "" && b != "" && a[0] == b[0] {
      LeqTotal(a[1..], b[1..]);
    }
  }

  lemma {:induction false} LeqAntisymmetric(a: string, b: string)
    requires Leq(a, b) && Leq(b, a)
    ensures a == b
  {
    if a != "" {
      LeqAntisymmetric(a[1..], b[1..]);
      assert a == [a[0]] + a[1..] && b == [b[0]] + b[1..];
    }
  }

  lemma {:induction false} LeqTransitive(a: string, b: string, c: string)
    requires Leq(a, b) && Leq(b, c)
    ensures Leq(a, c)
  {
    if a != "" && a[0] == b[0] && b[0] == c[0] {
      LeqTransitive(a[1..], b[1..], c[1..]);
    }
  }

  predicate IsLeast(k: string, keys: set<string>) {
    k in keys && forall x :: x in keys ==> Leq(k, x)
  }

  lemma {:induction false} LeastExists(keys: set<string>)
    requires keys != {}
    ensures exists k :: IsLeast(k, keys)
    decreases keys
  {
    var x :| x in keys;
    LeqTotal(x, x);
    if keys == {x} {
      assert IsLeast(x, keys);
    } else {
      var rest := keys - {x};
      LeastExists(rest);
      var y :| IsLeast(y, rest);
      LeqTotal(x, y);
      var k := if Leq(x, y) then x else y;
      forall z | z in keys ensures Leq(k, z) {
        if z != x {
          assert z in rest;
          if k == x {
            LeqTransitive(x, y, z);
          }
        }
      }
      assert IsLeast(k, keys);
    }
  }

  lemma LeastUnique(keys: set<string>)
    ensures forall x: string, y: string :: IsLeast(x, keys) && IsLeast(y, keys) ==> x == y
  {
    forall x: string, y: string | IsLeast(x, keys) && IsLeast(y, keys) ensures x == y {
      LeqAntisymmetric(x, y);
    }
  }

  function Least(keys: set<string>): (k: string)
    requires keys != {}
    ensures IsLeast(k, keys)
  {
    LeastExists(keys);
    LeastUnique(keys);
    var k :| IsLeast(k, keys);
    k
  }

  /** Python's `sorted` on the keys of a dictionary. */
  function SortedKeys(keys: set<string>): (sorted: seq<string>)
    ensures forall k :: k in sorted <==> k in keys
  {
    if keys == {} then []
    else
      var k := Least(keys);
      [k] + SortedKeys(keys - {k})
  }

  predicate Ascending(keys: seq<string>) {
    forall i, j :: 0 <= i < j < |keys| ==> keys[i] != keys[j] && Leq(keys[i], keys[j])
  }

  function KeySet(keys: seq<string>): (s: set<string>)
    ensures forall k :: k in s <==> k in keys
    ensures keys != [] ==> s != {}
  {
    var s := set k | k in keys;
    assert keys != [] ==> keys[0] in s;
    s
  }

  lemma FirstIsLeast(keys: seq<string>)
    requires keys != [] && Ascending(keys)
    ensures Least(KeySet(keys)) == keys[0]
    ensures KeySet(keys) - {keys[0]} == KeySet(keys[1..])
  {
    assert keys[0] in KeySet(keys);
    LeqTotal(keys[0], keys[0]);
    LeqAntisymmetric(Least(KeySet(keys)), keys[0]);
  }

  /**
    Insertion order is irrelevant: whatever order the keys were inserted in, sorting them in ascending order
    without repetition can only give this one list.
   */
  lemma {:induction false} SortedKeysUnique(keys: seq<string>)
    requires Ascending(keys)
    ensures SortedKeys(KeySet(keys)) == keys
  {
    if keys == [] {
      assert KeySet(keys) == {};
    } else {
      FirstIsLeast(keys);
      SortedKeysUnique(keys[1..]);
      assert keys == [keys[0]] + keys[1..];
    }
  }

  lemma {:induction false} SortedKeysAscending(keys: set<string>)
    ensures Ascending(SortedKeys(keys))
  {
    if keys != {} {
      SortedKeysAscending(keys - {Least(keys)});
    }
  }
}
