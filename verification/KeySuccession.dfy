/** Which keys sign the events of a history: genesis names them, rotations hand the operational key on. */
module KeySuccession {
  import opened Options
  import opened Json
  import opened Events
  import opened Reducer
  import opened ReducerHistory

  predicate IsKind(event: Event, kind: string) {
    Is(Get(event.body, "type"), kind)
  }

  /** Some entry with this payload carried valid signatures of exactly these roles. */
  ghost predicate SignedBy(ctx: Context, body: Object, roles: seq<Role>) {
    exists entry: Object :: Payload(entry) == body && ctx.signed(entry, roles) == Ok(true)
  }

  /** Keys are looked up by their own thumbprint. */
  predicate KeyTable(ctx: Context) {
    forall t :: t in ctx.byThumb ==> ctx.thumb(ctx.byThumb[t]) == Ok(t)
  }

  /** The operational key in force after event i: that of the last rotation up to i, or that of genesis. */
  function KeyInForce(applied: seq<Event>, i: nat): Option<Json>
    requires i < |applied|
  {
    if IsKind(applied[i], "KEY_ROTATION") then Get(applied[i].body, "new_ku")
    else if i == 0 then Get(applied[0].body, "ku")
    else KeyInForce(applied, i - 1)
  }

  predicate HasThumb(ctx: Context, key: Option<Json>, thumb: string) {
    key.Some? && ctx.thumb(key.value) == Ok(thumb)
  }

  lemma FirstState(ctx: Context, applied: seq<Event>)
    requires IsHistory(ctx, applied) && applied != []
    ensures IsKind(applied[0], "ISSUANCE") && applied[0].state.status.Active?
    ensures HasThumb(ctx, Get(applied[0].body, "ek"), applied[0].state.entityThumb)
    ensures HasThumb(ctx, Get(applied[0].body, "ku"), applied[0].state.operationalThumb)
  {
    assert HistoryAt(ctx, applied, 0);
  }

  /** What an event leaves behind, by its kind. */
  predicate Succeeds(ctx: Context, before: State, event: Event) {
    var (state, body) := (event.state, event.body);
    && state.fqdn == before.fqdn && state.entityThumb == before.entityThumb
    && (state.status.Revoked? <==> IsKind(event, "REVOCATION"))
    && if IsKind(event, "KEY_ROTATION") then
         && HasThumb(ctx, Get(body, "new_ku"), state.operationalThumb)
         && Is(Get(body, "prev_thumb"), before.operationalThumb) && Is(Get(body, "new_thumb"), state.operationalThumb)
       else state.operationalThumb == before.operationalThumb
  }

  lemma LaterState(ctx: Context, applied: seq<Event>, i: nat)
    requires IsHistory(ctx, applied) && 0 < i < |applied|
    ensures Succeeds(ctx, applied[i - 1].state, applied[i])
  {
    assert HistoryAt(ctx, applied, i);
  }

  /** The state always knows the key in force, and the entity key of genesis. */
  lemma {:induction false} StateKnowsKeys(ctx: Context, applied: seq<Event>, i: nat)
    requires IsHistory(ctx, applied) && i < |applied|
    ensures HasThumb(ctx, KeyInForce(applied, i), applied[i].state.operationalThumb)
    ensures HasThumb(ctx, Get(applied[0].body, "ek"), applied[i].state.entityThumb)
  {
    FirstState(ctx, applied);
    if i > 0 {
      StateKnowsKeys(ctx, applied, i - 1);
      LaterState(ctx, applied, i);
    }
  }

  /** Genesis is signed by the two keys that it introduces. */
  lemma GenesisIsSelfSigned(ctx: Context, applied: seq<Event>)
    requires IsHistory(ctx, applied) && applied != []
    ensures var body := applied[0].body;
      && "ek" in body && "ku" in body
      && SignedBy(ctx, body, [Role("ae", body["ek"]), Role("op", body["ku"])])
  {
    FirstState(ctx, applied);
    assert HistoryAt(ctx, applied, 0);
    var entry: Object :| Payload(entry) == applied[0].body && Authorised(ctx, None, entry);
  }

  /** The roles that a later event was verified under, by its kind. */
  lemma LaterRoles(ctx: Context, before: State, body: Object)
    requires VerifiedUnder(ctx, Some(before), body) && !Is(Get(body, "type"), "ISSUANCE")
    ensures if Is(Get(body, "type"), "KEY_ROTATION") then
              && before.operationalThumb in ctx.byThumb && "new_ku" in body
              && SignedBy(ctx, body, [Role("prev_op", ctx.byThumb[before.operationalThumb]),
                                      Role("new_op", body["new_ku"])])
            else
              && Is(Get(body, "type"), "REVOCATION") && before.entityThumb in ctx.byThumb
              && SignedBy(ctx, body, [Role("ae", ctx.byThumb[before.entityThumb])])
  {
    var entry: Object :| Payload(entry) == body && Authorised(ctx, Some(before), entry);
  }

  /**
    Succession: a rotation is signed by a key with the thumbprint of the key in force right before it, and by
    the key that it puts in force; anything else after genesis is a revocation, signed by a key with the
    thumbprint of the entity key of genesis.
   */
  lemma KeysSucceed(ctx: Context, applied: seq<Event>, i: nat) returns (signer: Json)
    requires IsHistory(ctx, applied) && KeyTable(ctx) && 0 < i < |applied|
    ensures var body := applied[i].body;
      if IsKind(applied[i], "KEY_ROTATION") then
        && KeyInForce(applied, i - 1).Some? && ctx.thumb(signer) == ctx.thumb(KeyInForce(applied, i - 1).value)
        && KeyInForce(applied, i).Some?
        && SignedBy(ctx, body, [Role("prev_op", signer), Role("new_op", KeyInForce(applied, i).value)])
      else
        && IsKind(applied[i], "REVOCATION")
        && "ek" in applied[0].body && ctx.thumb(signer) == ctx.thumb(applied[0].body["ek"])
        && SignedBy(ctx, body, [Role("ae", signer)])
  {
    var before := applied[i - 1].state;
    StateKnowsKeys(ctx, applied, i - 1);
    assert HistoryAt(ctx, applied, i);
    LaterRoles(ctx, before, applied[i].body);
    signer := ctx.byThumb[if IsKind(applied[i], "KEY_ROTATION") then before.operationalThumb else before.entityThumb];
  }
}
