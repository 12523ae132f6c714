/** Logs and words under the fixture's own digests, encoder and signature checks. */
module Witnesses {
  import opened Options
  import opened Json
  import opened Canonical
  import opened Events
  import opened Reducer
  import opened ReducerHistory
  import opened FailingPrefix
  import opened Selection
  import opened Rivals

  const KEY_FIELDS: Object :=
    map["kid" := Str("key"), "kty" := Str("EC"), "crv" := Str("P-256"), "x" := Str("x"), "y" := Str("y")]

  const KEY: Json := Obj(KEY_FIELDS)

  const ROLES: seq<Role> := [Role("ae", KEY), Role("op", KEY)]

  /** What every entry of the log carries. */
  function LogBody(one: Number, kind: string): Object {
    map["v" := Num(one), "method" := Str(METHOD), "lr" := Str(LR), "type" := Str(kind)]
  }

  /** An issuance for a domain, with one key in both roles. */
  function IssuanceBody(one: Number, zero: Number, fqdn: string): Object {
    LogBody(one, "ISSUANCE")["seq" := Num(zero)]["fqdn" := Str(fqdn)]["ek" := KEY]["ku" := KEY]
  }

  lemma WithMember(fields: Object, k: string, v: Json)
    requires Admissible(Obj(fields)) && Printable(k) && Admissible(v)
    ensures Admissible(Obj(fields[k := v]))
  {
  }

  lemma PartsArePrintable()
    ensures Printable(METHOD) && Printable(":public:") && Printable(LOG) && Printable("#") && Printable(STREAM)
  {
  }

  lemma LogIsPrintable()
    ensures Printable(METHOD) && Printable(LR)
  {
    PartsArePrintable();
  }

  lemma TextsArePrintable()
    ensures Printable("MIGRATION") && Printable("REVOCATION") && Printable("ISSUANCE")
    ensures Printable("a.example") && Printable("b.example") && Printable("keyCompromise")
  {
  }

  lemma KeyIsAdmissible()
    ensures Admissible(KEY)
  {
    var none: Object := map[];
    WithMember(none, "kid", Str("key"));
    var a := none["kid" := Str("key")];
    WithMember(a, "kty", Str("EC"));
    var b := a["kty" := Str("EC")];
    WithMember(b, "crv", Str("P-256"));
    var c := b["crv" := Str("P-256")];
    WithMember(c, "x", Str("x"));
    var d := c["x" := Str("x")];
    WithMember(d, "y", Str("y"));
    assert KEY_FIELDS == d["y" := Str("y")];
  }

  lemma LogBodyIsAdmissible(one: Number, kind: string)
    requires Printable(kind)
    ensures Admissible(Obj(LogBody(one, kind)))
  {
    LogIsPrintable();
    var none: Object := map[];
    WithMember(none, "v", Num(one));
    var a := none["v" := Num(one)];
    WithMember(a, "method", Str(METHOD));
    var b := a["method" := Str(METHOD)];
    WithMember(b, "lr", Str(LR));
    var c := b["lr" := Str(LR)];
    WithMember(c, "type", Str(kind));
    assert LogBody(one, kind) == c["type" := Str(kind)];
  }

  lemma GenesisMembersAreAdmissible(body: Object, zero: Number, fqdn: string)
    requires Admissible(Obj(body)) && Printable(fqdn)
    ensures Admissible(Obj(body["seq" := Num(zero)]["fqdn" := Str(fqdn)]["ek" := KEY]["ku" := KEY]))
  {
    KeyIsAdmissible();
    WithMember(body, "seq", Num(zero));
    var a := body["seq" := Num(zero)];
    WithMember(a, "fqdn", Str(fqdn));
    var b := a["fqdn" := Str(fqdn)];
    WithMember(b, "ek", KEY);
    WithMember(b["ek" := KEY], "ku", KEY);
  }

  lemma IssuanceIsAdmissible(one: Number, zero: Number, fqdn: string)
    requires Printable(fqdn)
    ensures Admissible(Obj(IssuanceBody(one, zero, fqdn)))
  {
    TextsArePrintable();
    LogBodyIsAdmissible(one, "ISSUANCE");
    GenesisMembersAreAdmissible(LogBody(one, "ISSUANCE"), zero, fqdn);
  }

  /** What the assertions on every entry ask of its members. */
  predicate Carries(body: Object, one: Number) {
    Get(body, "v") == Some(Num(one)) && Is(Get(body, "method"), METHOD) && Is(Get(body, "lr"), LR)
  }

  lemma IsAddressed(body: Object, one: Number)
    requires Admissible(Obj(body)) && EqualsNat(Num(one), 1) && Carries(body, one)
    ensures Addressed(body)
  {
  }

  lemma LogBodyCarries(one: Number, kind: string)
    ensures Carries(LogBody(one, kind), one)
  {
  }

  lemma IssuanceCarries(one: Number, zero: Number, fqdn: string)
    ensures Carries(IssuanceBody(one, zero, fqdn), one)
  {
  }

  lemma LogBodyIsAddressed(one: Number, kind: string)
    requires EqualsNat(Num(one), 1) && Printable(kind)
    ensures Addressed(LogBody(one, kind))
  {
    var body := LogBody(one, kind);
    LogBodyIsAdmissible(one, kind);
    LogBodyCarries(one, kind);
    IsAddressed(body, one);
  }

  lemma IssuanceIsAddressed(one: Number, zero: Number, fqdn: string)
    requires EqualsNat(Num(one), 1) && Printable(fqdn)
    ensures Addressed(IssuanceBody(one, zero, fqdn))
  {
    var body := IssuanceBody(one, zero, fqdn);
    IssuanceIsAdmissible(one, zero, fqdn);
    IssuanceCarries(one, zero, fqdn);
    IsAddressed(body, one);
  }

  // ----- A log with noise in front of genesis -----

  /** A first entry of a kind that needs an authority is skipped. */
  lemma FirstSkipped(ctx: Context, entry: Object, kind: string)
    requires ctx.addressed(Payload(entry)) && "prev_event_id" !in Payload(entry)
    requires Is(Get(Payload(entry), "type"), kind) && kind != "ISSUANCE"
    ensures Step(ctx, [], entry) == Ok([])
  {
  }

  /** A first issuance that carries an event id of its own breaks the chain. */
  lemma FirstLinked(ctx: Context, entry: Object, roles: seq<Role>)
    requires ctx.addressed(Payload(entry)) && "prev_event_id" !in Payload(entry) && "event_id" in Payload(entry)
    requires Is(Get(Payload(entry), "type"), "ISSUANCE") && RolesUnder(ctx, None, Payload(entry)) == Ok(Some(roles))
    requires ctx.signed(entry, roles) == Ok(true)
    ensures Step(ctx, [], entry) == Raised(ChainContinuity)
  {
  }

  /** Noise in front of the entry that raises: the search blames the noise. */
  lemma NoiseFirst(ctx: Context, noise: Object, entry: Object, error: Error)
    requires Step(ctx, [], noise) == Ok([]) && Step(ctx, [], entry) == Raised(error)
    ensures RaisesAt(ctx, [noise, entry], 1, error) && IsFirstFailing(ctx, [noise, entry], 0)
  {
    var entries := [noise, entry];
    assert Run(ctx, []) == Ok([]) && entries[..0] == [];
    RunExtends(ctx, entries, 0);
    RunExtends(ctx, entries, 1);
    assert entries[..1] == [noise];
    NothingAppliedFailsFirst(ctx, [noise]);
    assert PrefixFails(ctx, [noise], 0) && [noise][..1] == entries[..1];
  }

  /** An issuance that carries an event id. */
  function LinkedBody(one: Number, zero: Number): Object {
    IssuanceBody(one, zero, "a.example")["event_id" := Null]
  }

  lemma LinkedIsAdmissible(one: Number, zero: Number)
    ensures Admissible(Obj(LinkedBody(one, zero)))
  {
    TextsArePrintable();
    IssuanceIsAdmissible(one, zero, "a.example");
    WithMember(IssuanceBody(one, zero, "a.example"), "event_id", Null);
  }

  lemma LinkedCarries(one: Number, zero: Number)
    ensures Carries(LinkedBody(one, zero), one)
  {
  }

  lemma LinkedIsAddressed(one: Number, zero: Number)
    requires EqualsNat(Num(one), 1)
    ensures Addressed(LinkedBody(one, zero))
  {
    var body := LinkedBody(one, zero);
    LinkedIsAdmissible(one, zero);
    LinkedCarries(one, zero);
    IsAddressed(body, one);
  }

  lemma MigrationFirst(ctx: Context, noise: Object, entry: Object, one: Number, zero: Number)
    requires noise == LogBody(one, "MIGRATION") && Payload(entry) == LinkedBody(one, zero)
    requires ctx.addressed(noise) && ctx.addressed(Payload(entry)) && ctx.signed(entry, ROLES) == Ok(true)
    ensures RaisesAt(ctx, [noise, entry], 1, ChainContinuity) && IsFirstFailing(ctx, [noise, entry], 0)
  {
    assert Payload(noise) == noise;
    FirstSkipped(ctx, noise, "MIGRATION");
    assert RolesUnder(ctx, None, LinkedBody(one, zero)) == Ok(Some(ROLES));
    FirstLinked(ctx, entry, ROLES);
    NoiseFirst(ctx, noise, entry, ChainContinuity);
  }

  /**
    Under the fixture's own digests and checks, whatever the hash: a log of a migration and a properly signed
    issuance that carries an event id raises at its second entry, while the search blames the first.
   */
  lemma NoiseFirstMisleads(hash: TextHash, check: Verifier, entry: Object, one: Number, zero: Number)
    requires EqualsNat(Num(one), 1) && Payload(entry) == LinkedBody(one, zero)
    requires SignaturesValid(check, entry, ROLES) == Ok(true)
    ensures var ctx, entries := FixtureContext(hash, check, map[]), [LogBody(one, "MIGRATION"), entry];
      RaisesAt(ctx, entries, 1, ChainContinuity) && IsFirstFailing(ctx, entries, 0)
  {
    TextsArePrintable();
    LogBodyIsAddressed(one, "MIGRATION");
    LinkedIsAddressed(one, zero);
    MigrationFirst(FixtureContext(hash, check, map[]), LogBody(one, "MIGRATION"), entry, one, zero);
  }

  // ----- Such entries exist -----

  const SIGNATURE: Json := Obj(map["kid" := Str("key"), "sig" := Str("AA")])

  const SIGNATURES: Json := Obj(map["ae" := SIGNATURE, "op" := SIGNATURE])

  lemma SignatureNames()
    ensures Names(SIGNATURES) == Ok(RoleNames(ROLES))
  {
    assert ROLES[0].name == "ae" && ROLES[1].name == "op";
    assert Names(SIGNATURES).value == RoleNames(ROLES);
  }

  lemma SignatureCounts(check: Verifier, role: Role, text: string)
    requires role in ROLES && check(KEY, text, Str("AA")).Good?
    ensures SignedFor(check, SIGNATURES, role, text)
  {
    assert SIGNATURE.fields.Keys == {"kid", "sig"};
  }

  /** Where the key's signature verifies, an entry that carries it in both roles is valid. */
  lemma SelfSignedIsValid(check: Verifier, entry: Object, body: Object)
    requires Payload(entry) == body && Get(entry, "sigs") == Some(SIGNATURES)
    requires check(KEY, Encode(Obj(body)), Str("AA")).Good?
    ensures SignaturesValid(check, entry, ROLES) == Ok(true)
  {
    SignatureNames();
    forall i | 0 <= i < |ROLES| ensures SignedFor(check, entry["sigs"], ROLES[i], Encode(Obj(Payload(entry)))) {
      SignatureCounts(check, ROLES[i], Encode(Obj(body)));
    }
    SignaturesValidIff(check, entry, ROLES);
  }

  // ----- Words under the fixture's primitives -----

  function StateOfKey(thumb: string, fqdn: string): State {
    State(Str(fqdn), Active, thumb, thumb)
  }

  function GenesisOf(ctx: Context, body: Object, thumb: string, fqdn: string): Event {
    Event(ctx.eventId(body), body, 0, StateOfKey(thumb, fqdn))
  }

  /** What a context makes of the key and of the two numbers. */
  predicate Ready(ctx: Context, thumb: string, one: Number, zero: Number) {
    && ctx.thumb(KEY) == Ok(thumb) && thumb in ctx.byThumb && ctx.byThumb[thumb] == KEY
    && ctx.equalsNat(Num(zero), 0) && ctx.equalsNat(Num(one), 1)
  }

  /** The members that a genesis of this key has. */
  predicate Introduces(body: Object, zero: Number, fqdn: string) {
    && Is(Get(body, "type"), "ISSUANCE") && Get(body, "seq") == Some(Num(zero)) && Is(Get(body, "fqdn"), fqdn)
    && Get(body, "ek") == Some(KEY) && Get(body, "ku") == Some(KEY)
    && "prev_event_id" !in body && "prev_state_hash" !in body && !HasForbiddenLink(body)
  }

  lemma IssuanceIntroduces(one: Number, zero: Number, fqdn: string)
    ensures Introduces(IssuanceBody(one, zero, fqdn), zero, fqdn)
  {
  }

  lemma GenesisStarts(ctx: Context, body: Object, thumb: string, zero: Number, fqdn: string)
    requires Introduces(body, zero, fqdn) && ctx.addressed(body)
    requires ctx.thumb(KEY) == Ok(thumb) && ctx.equalsNat(Num(zero), 0)
    ensures IsGenesis(ctx, GenesisOf(ctx, body, thumb, fqdn), ROLES)
  {
    assert RolesUnder(ctx, None, body) == Ok(Some(ROLES));
    assert Genesis(ctx, body) == Ok(StateOfKey(thumb, fqdn));
    assert IsNat(ctx, Get(body, "seq"), 0);
  }

  function RevocationBody(ctx: Context, one: Number, genesis: Event): Object {
    LogBody(one, "REVOCATION")["prev_event_id" := Str(genesis.id)]["seq" := Num(one)]
      ["prev_state_hash" := Str(StateHash(ctx, genesis.state))]["reason" := Str("keyCompromise")]
  }

  /** An issuance, an unauthenticated migration and a revocation. */
  predicate IsLetter(ctx: Context, thumb: string, one: Number, genesis: Event, c: Candidate) {
    var body := Payload(c.entry);
    match c.kind
    case Issuance => body == genesis.body && ctx.signed(c.entry, ROLES) == Ok(c.authenticated)
    case Migration => body == LogBody(one, "MIGRATION") && !c.authenticated
    case Revocation =>
      body == RevocationBody(ctx, one, genesis) && ctx.signed(c.entry, [Role("ae", KEY)]) == Ok(c.authenticated)
    case Rotation => false
  }

  predicate Revokes(ctx: Context, body: Object, one: Number, genesis: Event) {
    && Is(Get(body, "type"), "REVOCATION") && Is(Get(body, "reason"), "keyCompromise")
    && Is(Get(body, "prev_event_id"), genesis.id) && Get(body, "seq") == Some(Num(one))
    && Is(Get(body, "prev_state_hash"), StateHash(ctx, genesis.state)) && !HasForbiddenLink(body)
  }

  lemma RevocationRevokes(ctx: Context, one: Number, genesis: Event)
    ensures Revokes(ctx, RevocationBody(ctx, one, genesis), one, genesis)
  {
  }

  /** A revocation of an entity whose key is known fits its genesis. */
  lemma RevocationFits(ctx: Context, one: Number, genesis: Event, c: Candidate)
    requires ctx.addressed(Payload(c.entry)) && Revokes(ctx, Payload(c.entry), one, genesis)
    requires c.kind.Revocation? && ctx.signed(c.entry, [Role("ae", KEY)]) == Ok(c.authenticated)
    requires genesis.state.entityThumb in ctx.byThumb && ctx.byThumb[genesis.state.entityThumb] == KEY
    requires genesis.number == 0 && ctx.equalsNat(Num(one), 1)
    ensures Fits(ctx, genesis, ROLES, c)
  {
    var body := Payload(c.entry);
    assert RolesUnder(ctx, Some(genesis.state), body) == Ok(Some([Role("ae", KEY)]));
    assert Extends(ctx, genesis, body);
    assert After(ctx, genesis.state, body).Ok?;
  }

  lemma LetterFits(ctx: Context, thumb: string, one: Number, zero: Number, genesis: Event, c: Candidate, fqdn: string)
    requires Ready(ctx, thumb, one, zero) && genesis == GenesisOf(ctx, IssuanceBody(one, zero, fqdn), thumb, fqdn)
    requires IsLetter(ctx, thumb, one, genesis, c) && ctx.addressed(Payload(c.entry))
    ensures Fits(ctx, genesis, ROLES, c)
  {
    if c.kind.Revocation? {
      RevocationRevokes(ctx, one, genesis);
      RevocationFits(ctx, one, genesis, c);
    }
  }

  lemma RevocationIsAdmissible(ctx: Context, one: Number, genesis: Event)
    requires Printable(genesis.id) && Printable(StateHash(ctx, genesis.state))
    ensures Admissible(Obj(RevocationBody(ctx, one, genesis)))
  {
    LogBodyIsAdmissible(one, "REVOCATION");
    LinkIsAdmissible(LogBody(one, "REVOCATION"), one, genesis.id, StateHash(ctx, genesis.state));
  }

  lemma LinkIsAdmissible(body: Object, one: Number, id: string, state: string)
    requires Admissible(Obj(body)) && Printable(id) && Printable(state)
    ensures Admissible(Obj(body["prev_event_id" := Str(id)]["seq" := Num(one)]["prev_state_hash" := Str(state)]
                             ["reason" := Str("keyCompromise")]))
  {
    WithMember(body, "prev_event_id", Str(id));
    var a := body["prev_event_id" := Str(id)];
    WithMember(a, "seq", Num(one));
    var b := a["seq" := Num(one)];
    WithMember(b, "prev_state_hash", Str(state));
    WithMember(b["prev_state_hash" := Str(state)], "reason", Str("keyCompromise"));
  }

  lemma RevocationCarries(ctx: Context, one: Number, genesis: Event)
    ensures Carries(RevocationBody(ctx, one, genesis), one)
  {
  }

  lemma RevocationIsAddressed(ctx: Context, one: Number, genesis: Event)
    requires EqualsNat(Num(one), 1) && Printable(genesis.id) && Printable(StateHash(ctx, genesis.state))
    ensures Addressed(RevocationBody(ctx, one, genesis))
  {
    var body := RevocationBody(ctx, one, genesis);
    RevocationIsAdmissible(ctx, one, genesis);
    RevocationCarries(ctx, one, genesis);
    IsAddressed(body, one);
  }

  /** The thumbprint of the key under a hash. */
  function KeyThumb(hash: TextHash): (thumb: string)
    ensures Thumb(hash, KEY) == Ok(thumb)
  {
    Thumb(hash, KEY).value
  }

  /** The fixture's primitives, with one key in the table. */
  function FixtureOf(hash: TextHash, check: Verifier): Context {
    FixtureContext(hash, check, map[KeyThumb(hash) := KEY])
  }

  /** A hash whose values the encoder admits, as base64 text is. */
  ghost predicate WritesText(hash: TextHash) {
    forall t :: Printable(hash(t))
  }

  lemma FixtureReady(hash: TextHash, check: Verifier, one: Number, zero: Number)
    requires EqualsNat(Num(one), 1) && EqualsNat(Num(zero), 0)
    ensures Ready(FixtureOf(hash, check), KeyThumb(hash), one, zero)
  {
  }

  function FixtureGenesis(hash: TextHash, check: Verifier, one: Number, zero: Number): Event {
    GenesisOf(FixtureOf(hash, check), IssuanceBody(one, zero, "a.example"), KeyThumb(hash), "a.example")
  }

  /** The letters' payloads are addressed. */
  predicate LettersAddressed(ctx: Context, one: Number, zero: Number, genesis: Event) {
    && ctx.addressed(IssuanceBody(one, zero, "a.example")) && ctx.addressed(IssuanceBody(one, zero, "b.example"))
    && ctx.addressed(LogBody(one, "MIGRATION")) && ctx.addressed(RevocationBody(ctx, one, genesis))
  }

  lemma FixtureAddressed(hash: TextHash, check: Verifier, body: Object)
    requires Addressed(body)
    ensures FixtureOf(hash, check).addressed(body)
  {
  }

  lemma FixtureIssuance(hash: TextHash, check: Verifier, one: Number, zero: Number, fqdn: string)
    requires EqualsNat(Num(one), 1) && Printable(fqdn)
    ensures FixtureOf(hash, check).addressed(IssuanceBody(one, zero, fqdn))
  {
    IssuanceIsAddressed(one, zero, fqdn);
    FixtureAddressed(hash, check, IssuanceBody(one, zero, fqdn));
  }

  lemma FixtureMigration(hash: TextHash, check: Verifier, one: Number)
    requires EqualsNat(Num(one), 1)
    ensures FixtureOf(hash, check).addressed(LogBody(one, "MIGRATION"))
  {
    TextsArePrintable();
    LogBodyIsAddressed(one, "MIGRATION");
    FixtureAddressed(hash, check, LogBody(one, "MIGRATION"));
  }

  lemma FixtureRevocation(hash: TextHash, check: Verifier, one: Number, genesis: Event)
    requires EqualsNat(Num(one), 1) && Printable(genesis.id) && WritesText(hash)
    ensures FixtureOf(hash, check).addressed(RevocationBody(FixtureOf(hash, check), one, genesis))
  {
    var ctx := FixtureOf(hash, check);
    assert StateHash(ctx, genesis.state) == Digest(hash, StateDomain, StateJson(genesis.state));
    RevocationIsAddressed(ctx, one, genesis);
    FixtureAddressed(hash, check, RevocationBody(ctx, one, genesis));
  }

  lemma FixtureAddresses(hash: TextHash, check: Verifier, one: Number, zero: Number)
    requires WritesText(hash) && EqualsNat(Num(one), 1)
    ensures LettersAddressed(FixtureOf(hash, check), one, zero, FixtureGenesis(hash, check, one, zero))
  {
    TextsArePrintable();
    var ctx, genesis := FixtureOf(hash, check), FixtureGenesis(hash, check, one, zero);
    assert genesis.id == Digest(hash, EventDomain, Obj(genesis.body));
    FixtureIssuance(hash, check, one, zero, "a.example");
    FixtureIssuance(hash, check, one, zero, "b.example");
    FixtureMigration(hash, check, one);
    FixtureRevocation(hash, check, one, genesis);
  }

  /** Words of such letters, of any length and in any order, fit their genesis. */
  lemma WordOfLetters(
    ctx: Context, thumb: string, one: Number, zero: Number, genesis: Event, word: seq<Candidate>)
    requires Ready(ctx, thumb, one, zero) && LettersAddressed(ctx, one, zero, genesis)
    requires genesis == GenesisOf(ctx, IssuanceBody(one, zero, "a.example"), thumb, "a.example")
    requires forall c :: c in word ==> IsLetter(ctx, thumb, one, genesis, c)
    requires forall c, d :: c in word && d in word ==> !AreTwins(ctx, Twins(Payload(c.entry), Payload(d.entry)))
    ensures Word(ctx, genesis, ROLES, word)
  {
    IssuanceIntroduces(one, zero, "a.example");
    GenesisStarts(ctx, genesis.body, thumb, zero, "a.example");
    forall c | c in word ensures Fits(ctx, genesis, ROLES, c) {
      LetterFits(ctx, thumb, one, zero, genesis, c, "a.example");
    }
  }

  /** Under the fixture's primitives there are such words: the model speaks for the reducer on all of them. */
  lemma FixtureWord(
    hash: TextHash, check: Verifier, one: Number, zero: Number, genesis: Event, word: seq<Candidate>)
    requires WritesText(hash) && EqualsNat(Num(one), 1) && EqualsNat(Num(zero), 0)
    requires genesis == FixtureGenesis(hash, check, one, zero)
    requires forall c :: c in word ==> IsLetter(FixtureOf(hash, check), KeyThumb(hash), one, genesis, c)
    requires forall c, d :: c in word && d in word ==>
               !AreTwins(FixtureOf(hash, check), Twins(Payload(c.entry), Payload(d.entry)))
    ensures Word(FixtureOf(hash, check), genesis, ROLES, word) && Agrees(FixtureOf(hash, check), word)
  {
    FixtureReady(hash, check, one, zero);
    FixtureAddresses(hash, check, one, zero);
    WordOfLetters(FixtureOf(hash, check), KeyThumb(hash), one, zero, genesis, word);
    ExpectRefinesReduce(FixtureOf(hash, check), genesis, ROLES, word);
  }

  // ----- A word with a rival -----

  /** An authenticated letter with this payload. */
  predicate Authenticates(ctx: Context, c: Candidate, kind: Kind, body: Object, roles: seq<Role>) {
    c.kind == kind && c.authenticated && Payload(c.entry) == body && ctx.signed(c.entry, roles) == Ok(true)
  }

  lemma RivalOf(ctx: Context, thumb: string, one: Number, zero: Number, genesis: Event, c: Candidate)
    requires Ready(ctx, thumb, one, zero) && genesis.state.entityThumb == thumb
    requires Authenticates(ctx, c, Issuance, IssuanceBody(one, zero, "b.example"), ROLES)
    requires ctx.addressed(Payload(c.entry))
    ensures IsRival(ctx, genesis, c)
  {
    assert RolesUnder(ctx, Some(genesis.state), Payload(c.entry)) == Ok(Some(ROLES));
  }

  lemma ScanOfOne(ctx: Context, c: Candidate)
    requires c.kind.Issuance? && c.authenticated
    ensures var id := ctx.eventId(Payload(c.entry));
      Scan(ctx, [c]) == Going(Chosen([(0, c.effect)], {id}, Some(id), false))
  {
    assert [c][..0] == [];
  }

  lemma NoTwins(ctx: Context, word: seq<Candidate>, body: Object)
    requires forall c :: c in word ==> Payload(c.entry) == body
    ensures forall c, d :: c in word && d in word ==> !AreTwins(ctx, Twins(Payload(c.entry), Payload(d.entry)))
  {
  }

  lemma IssuancesPart(
    ctx: Context, thumb: string, one: Number, zero: Number, genesis: Event, first: Candidate, second: Candidate)
    requires Ready(ctx, thumb, one, zero) && LettersAddressed(ctx, one, zero, genesis)
    requires genesis == GenesisOf(ctx, IssuanceBody(one, zero, "a.example"), thumb, "a.example")
    requires Authenticates(ctx, first, Issuance, IssuanceBody(one, zero, "a.example"), ROLES)
    requires Authenticates(ctx, second, Issuance, IssuanceBody(one, zero, "b.example"), ROLES)
    requires ctx.eventId(Payload(first.entry)) != ctx.eventId(Payload(second.entry))
    ensures !Agrees(ctx, [first, second])
  {
    NoTwins(ctx, [first], genesis.body);
    WordOfLetters(ctx, thumb, one, zero, genesis, [first]);
    RivalOf(ctx, thumb, one, zero, genesis, second);
    ScanOfOne(ctx, first);
    assert [first] + [second] + [] == [first, second];
    RivalDecides(ctx, genesis, ROLES, [first], second, []);
  }

  /** Two issuances of one key for two domains: on this word the model and the reducer part. */
  lemma TwoIssuancesPart(
    hash: TextHash, check: Verifier, one: Number, zero: Number, first: Candidate, second: Candidate)
    requires WritesText(hash) && EqualsNat(Num(one), 1) && EqualsNat(Num(zero), 0)
    requires Authenticates(FixtureOf(hash, check), first, Issuance, IssuanceBody(one, zero, "a.example"), ROLES)
    requires Authenticates(FixtureOf(hash, check), second, Issuance, IssuanceBody(one, zero, "b.example"), ROLES)
    requires EventId(hash, Payload(first.entry)) != EventId(hash, Payload(second.entry))
    ensures !Agrees(FixtureOf(hash, check), [first, second])
  {
    var genesis := FixtureGenesis(hash, check, one, zero);
    FixtureReady(hash, check, one, zero);
    FixtureAddresses(hash, check, one, zero);
    IssuancesPart(FixtureOf(hash, check), KeyThumb(hash), one, zero, genesis, first, second);
  }
}
