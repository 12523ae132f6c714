/**
  Lifecycle entries: payloads, domain-separated digests, key thumbprints and role signatures.

  Everything that Python raises other than a named verification error (a failed assertion, a missing key, a
  wrong type) is one outcome, Crash.
 */
module Events {
  import opened Options
  import opened Json
  import opened Canonical

  datatype Error = TerminalState | DuplicateIssuance | ChainContinuity | GenesisRequired | Crash

  datatype Result<+T> = Ok(value: T) | Raised(error: Error) {
    predicate IsFailure() {
      Raised?
    }

    function PropagateFailure<U>(): Result<U>
      requires Raised?
    {
      Raised(error)
    }

    function Extract(): T
      requires Ok?
    {
      value
    }
  }

  function Guard(condition: bool, error: Error): Result<()> {
    if condition then Ok(()) else Raised(error)
  }

  type Object = map<string, Json>

  /** The base64url text of SHA-256 over a text. */
  type TextHash = string -> string

  /** Verifying one signature: valid, invalid, or an exception that the caller does not catch. */
  datatype Check = Good | Bad | Broken

  /** Verification of a signature over a text under a key. */
  type Verifier = (Json, string, Json) -> Check

  const METHOD: string := "c2sp-tlog"

  const LOG: string := "https://log.example"

  const STREAM: string := "Q2hWbW5Ta0x5R0JtM3B0dw"

  /** The log reference of the fixture stream. */
  const LR: string := METHOD + ":public:" + LOG + "#" + STREAM

  // ----- Digests -----

  datatype Domain = EventDomain | StateDomain

  /** The hashed text: the event domain carries a separator, the state hash never had one. */
  function DigestInput(domain: Domain, v: Json): string {
    match domain
    case EventDomain => "dnsid-c2sp-event-v1\0" + Encode(v)
    case StateDomain => "dnsid-c2sp-state-v1" + Encode(v)
  }

  /** Domains never meet, and within a domain the text determines the value. */
  lemma DigestInputInjective(d: Domain, v: Json, e: Domain, w: Json)
    requires DigestInput(d, v) == DigestInput(e, w)
    ensures d == e && v == w
  {
    var x, y := DigestInput(d, v), DigestInput(e, w);
    assert x[11] == if d.EventDomain? then 'e' else 's';
    assert y[11] == if e.EventDomain? then 'e' else 's';
    if d.EventDomain? {
      assert x[20..] == Encode(v) && y[20..] == Encode(w);
    } else {
      assert x[19..] == Encode(v) && y[19..] == Encode(w);
    }
    EncodeInjective(v, w);
  }

  function Digest(hash: TextHash, domain: Domain, v: Json): string {
    hash(DigestInput(domain, v))
  }

  function Payload(entry: Object): Object {
    entry - {"sigs"}
  }

  function EventId(hash: TextHash, body: Object): string {
    Digest(hash, EventDomain, Obj(body))
  }

  /** Different bodies with the same event id have different hashed texts: a collision of the hash. */
  lemma EventIdCollision(hash: TextHash, x: Object, y: Object)
    requires x != y && EventId(hash, x) == EventId(hash, y)
    ensures var u, v := DigestInput(EventDomain, Obj(x)), DigestInput(EventDomain, Obj(y));
      u != v && hash(u) == hash(v)
  {
    var u, v := DigestInput(EventDomain, Obj(x)), DigestInput(EventDomain, Obj(y));
    if u == v {
      DigestInputInjective(EventDomain, Obj(x), EventDomain, Obj(y));
    }
  }

  // ----- Python's view of values -----

  /** Python's equality treats True and False as the numbers 1 and 0. */
  function Plain(v: Json): Json {
    match v
    case Bool(b) => Num(IntValue(if b then 1 else 0))
    case Arr(items) => Arr(seq(|items|, i requires 0 <= i < |items| => Plain(items[i])))
    case Obj(fields) => Obj(map k | k in fields :: Plain(fields[k]))
    case _ => v
  }

  predicate PyEq(v: Json, w: Json) {
    Plain(v) == Plain(w)
  }

  predicate Hashable(v: Json) {
    !v.Arr? && !v.Obj?
  }

  function Get(body: Object, key: string): Option<Json> {
    if key in body then Some(body[key]) else None
  }

  function Field(body: Object, key: string): Result<Json> {
    if key in body then Ok(body[key]) else Raised(Crash)
  }

  predicate Is(v: Option<Json>, text: string) {
    v == Some(Str(text))
  }

  /** Python's comparison of a value with an integer. */
  predicate EqualsNat(v: Json, n: nat) {
    PyEq(v, Num(IntValue(n)))
  }

  /** The assertions on every entry: the encoder's, and those on version, method and log reference. */
  predicate Addressed(body: Object) {
    && Admissible(Obj(body))
    && "v" in body && EqualsNat(body["v"], 1)
    && Is(Get(body, "method"), METHOD)
    && Is(Get(body, "lr"), LR)
  }

  /** Python's `set(v)`, as far as it can equal a set of role names. */
  function Names(v: Json): Result<set<Json>> {
    match v
    case Obj(fields) => Ok(set k | k in fields :: Str(k))
    case Arr(items) =>
      if forall i :: 0 <= i < |items| ==> Hashable(items[i]) then Ok(set v | v in items) else Raised(Crash)
    case Str(s) => Ok(set i | 0 <= i < |s| :: Str([s[i]]))
    case _ => Raised(Crash)
  }

  // ----- Thumbprints and signatures -----

  /** The thumbprint of a public key: a digest of four of its members, without a domain. */
  function Thumb(hash: TextHash, key: Json): Result<string> {
    if key.Obj? && {"crv", "kty", "x", "y"} <= key.fields.Keys then
      Ok(hash(Encode(Obj(map k: string | k in {"crv", "kty", "x", "y"} :: key.fields[k]))))
    else Raised(Crash)
  }

  datatype Role = Role(name: string, key: Json)

  /** One role of an entry whose signature object has the right role names. */
  function RoleValid(check: Verifier, sigs: Json, role: Role, text: string): Result<bool> {
    if !sigs.Obj? || role.name !in sigs.fields then Raised(Crash)
    else
      var signature := sigs.fields[role.name];
      var names :- Names(signature);
      if names != {Str("kid"), Str("sig")} then Ok(false)
      else if !signature.Obj? || !role.key.Obj? then Raised(Crash)
      else if "kid" !in role.key.fields || !PyEq(signature.fields["kid"], role.key.fields["kid"]) then Ok(false)
      else
        match check(role.key, text, signature.fields["sig"])
        case Good => Ok(true)
        case Bad => Ok(false)
        case Broken => Raised(Crash)
  }

  function RolesValid(check: Verifier, sigs: Json, roles: seq<Role>, text: string): Result<bool> {
    if roles == [] then Ok(true)
    else
      var valid :- RoleValid(check, sigs, roles[0], text);
      if valid then RolesValid(check, sigs, roles[1..], text) else Ok(false)
  }

  function RoleNames(roles: seq<Role>): set<Json> {
    set r | r in roles :: Str(r.name)
  }

  function SignaturesValid(check: Verifier, entry: Object, roles: seq<Role>): Result<bool> {
    if "sigs" !in entry then Ok(false)
    else
      var names :- Names(entry["sigs"]);
      if names != RoleNames(roles) then Ok(false)
      else RolesValid(check, entry["sigs"], roles, Encode(Obj(Payload(entry))))
  }

  /** A signature object has exactly a key id, that of the role's key, and a signature that verifies. */
  predicate SignedFor(check: Verifier, sigs: Json, role: Role, text: string) {
    && sigs.Obj? && role.name in sigs.fields && sigs.fields[role.name].Obj?
    && var signature := sigs.fields[role.name].fields;
       && signature.Keys == {"kid", "sig"}
       && role.key.Obj? && "kid" in role.key.fields && PyEq(signature["kid"], role.key.fields["kid"])
       && check(role.key, text, signature["sig"]).Good?
  }

  lemma NamesOfKeys(fields: Object, keys: set<string>)
    ensures Names(Obj(fields)).Ok?
    ensures Names(Obj(fields)).value == (set k | k in keys :: Str(k)) <==> fields.Keys == keys
  {
    if Names(Obj(fields)).value == set k | k in keys :: Str(k) {
      forall k ensures k in fields <==> k in keys {
        assert k in fields <==> Str(k) in Names(Obj(fields)).value;
      }
    }
  }

  lemma RoleValidIff(check: Verifier, sigs: Json, role: Role, text: string)
    ensures RoleValid(check, sigs, role, text) == Ok(true) <==> SignedFor(check, sigs, role, text)
  {
    if sigs.Obj? && role.name in sigs.fields && sigs.fields[role.name].Obj? {
      var signature := sigs.fields[role.name];
      NamesOfKeys(signature.fields, {"kid", "sig"});
      assert (set k: string | k in {"kid", "sig"} :: Str(k)) == {Str("kid"), Str("sig")};
    }
  }

  lemma {:induction false} RolesValidIff(check: Verifier, sigs: Json, roles: seq<Role>, text: string)
    ensures RolesValid(check, sigs, roles, text) == Ok(true)
       <==> forall i :: 0 <= i < |roles| ==> SignedFor(check, sigs, roles[i], text)
  {
    if roles != [] {
      RoleValidIff(check, sigs, roles[0], text);
      RolesValidIff(check, sigs, roles[1..], text);
      assert forall i :: 0 < i < |roles| ==> roles[i] == roles[1..][i - 1];
    }
  }

  /** An entry is authenticated exactly if its signature object names the roles and each of them signed. */
  lemma SignaturesValidIff(check: Verifier, entry: Object, roles: seq<Role>)
    ensures SignaturesValid(check, entry, roles) == Ok(true)
       <==> && "sigs" in entry && Names(entry["sigs"]) == Ok(RoleNames(roles))
            && forall i :: 0 <= i < |roles| ==> SignedFor(check, entry["sigs"], roles[i], Encode(Obj(Payload(entry))))
  {
    if "sigs" in entry {
      RolesValidIff(check, entry["sigs"], roles, Encode(Obj(Payload(entry))));
    }
  }

  /** The loop with its early returns. */
  method CheckSignatures(check: Verifier, entry: Object, roles: seq<Role>) returns (r: Result<bool>)
    ensures r == SignaturesValid(check, entry, roles)
  {
    if "sigs" !in entry {
      return Ok(false);
    }
    var names := Names(entry["sigs"]);
    if names.Raised? {
      return Raised(names.error);
    }
    if names.value != RoleNames(roles) {
      return Ok(false);
    }
    var text := Encode(Obj(Payload(entry)));
    for i := 0 to |roles|
      invariant RolesValid(check, entry["sigs"], roles[i..], text) == RolesValid(check, entry["sigs"], roles, text)
    {
      var valid := RoleValid(check, entry["sigs"], roles[i], text);
      assert roles[i..][1..] == roles[i + 1..];
      if valid.Raised? {
        return Raised(valid.error);
      }
      if !valid.value {
        return Ok(false);
      }
    }
    return Ok(true);
  }
}
