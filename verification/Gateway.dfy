/** The gateway's admission sequence: authenticate, answer retries, and only then consult the policy. */
module Gateway {
  import opened Prelude
  import opened MailboxModel
  import opened Mailbox
  import opened ExactlyOnce

  /** Answers of the cryptographic checks, in the order AdmitV2 asks for them. */
  datatype Verdicts = Verdicts(
    signed: bool,          // the signature verifies and the authenticated sender is the one in the header
    current: bool,         // the gateway's own policy still verifies
    conforms: bool,        // the envelope verifies against that policy
    body: Option<Body>,  // the decrypted and validated body, asked for only by an inspecting policy
    receipt: Option<Bytes>)  // the freshly signed and encoded receipt

  /** What reaches the store when every check passes. */
  function Submit(sdk: Sdk, policyHash: string, recipient: Urn, raw: Bytes, v: Verdicts): (s: Submission)
    requires v.receipt.Some?
    ensures s.envelope == raw && s.recipient == recipient && s.receipt == v.receipt.value && s.policyHash == policyHash
    ensures s.id == sdk.header(raw).id && s.expiry == sdk.header(raw).expiry
    ensures sdk.inspects(policyHash) ==> s.body == v.body
    ensures !sdk.inspects(policyHash) ==> s.body == None
  {
    Submission(recipient, sdk.header(raw).id, policyHash, raw, v.receipt.value, sdk.header(raw).expiry,
               if sdk.inspects(policyHash) then v.body else None)
  }

  /** Everything the gateway checks before the retry lookup. */
  predicate Authentic(sdk: Sdk, v: Verdicts, recipient: Urn, raw: Bytes, requestedExpiry: int) {
    && 0 < |raw| <= MAX_ENVELOPE && v.signed
    && sdk.header(raw).recipient == recipient && sdk.header(raw).expiry == requestedExpiry
  }

  /** What must hold of a request before its ID is even looked up. */
  lemma AuthenticIff(sdk: Sdk, v: Verdicts, recipient: Urn, raw: Bytes, requestedExpiry: int)
    ensures Authentic(sdk, v, recipient, raw, requestedExpiry) <==>
      && 1 <= |raw| <= 1024 * 1024 && v.signed
      && sdk.header(raw).recipient == recipient && sdk.header(raw).expiry == requestedExpiry
  {
  }

  method AdmitV2(store: Store, policyHash: string, v: Verdicts, recipient: Urn, raw: Bytes, requestedExpiry: int,
                 storeOpen: bool, forwardOpen: bool, seen: int, at: int) returns (r: Result<(Id, Bytes), Refusal>)
    requires v.conforms ==> store.sdk.header(raw).policyHash == policyHash
    modifies store`v2, store`admissions, store`archive, store`archiveUsed
    ensures r.Ok? ==> 1 <= |raw| <= 1024 * 1024 && v.signed && store.sdk.header(raw).recipient == recipient && store.sdk.header(raw).expiry == requestedExpiry
    ensures !Authentic(store.sdk, v, recipient, raw, requestedExpiry) ==> r == Err(Invalid) && store.Db() == old(store.Db())
    ensures Authentic(store.sdk, v, recipient, raw, requestedExpiry) ==>
      var id := store.sdk.header(raw).id;
      match ExistingReceipt(store.sdk, old(store.Db()), recipient, id, raw)
      case Ok(Some(receipt)) => r == Ok((id, receipt)) && store.Db() == old(store.Db())
      case Err(e) => r == Err(e) && store.Db() == old(store.Db())
      case Ok(None) =>
        if !v.current then r == Err(PolicyMismatch) && store.Db() == old(store.Db())
        else if !v.conforms || (store.sdk.inspects(policyHash) && v.body.None?) || v.receipt.None? then r == Err(Invalid) && store.Db() == old(store.Db())
        else
          var s := Submit(store.sdk, policyHash, recipient, raw, v);
          var (next, outcome) := StoreOutcomeV2(store.sdk, store.lim, old(store.Db()), old(store.Proc()), storeOpen, forwardOpen, s, seen, at);
          && MatchesHeader(store.sdk, s)
          && store.Db() == next && r == match outcome case Ok(receipt) => Ok((id, receipt)) case Err(e) => Err(e)
  {
    hide StoreOutcomeV2, ExistingReceipt;
    if |raw| == 0 || |raw| > MAX_ENVELOPE {
      return Err(Invalid);
    }
    var header := store.sdk.header(raw);
    if !v.signed {
      return Err(Invalid);
    }
    if header.recipient != recipient || header.expiry != requestedExpiry {
      return Err(Invalid);
    }
    var existing := store.ExistingV2Receipt(recipient, header.id, raw);
    match existing {
      case Err(e) => return Err(e);
      case Ok(Some(receipt)) => return Ok((header.id, receipt));
      case Ok(None) =>
    }
    if !v.current {
      return Err(PolicyMismatch);
    }
    if !v.conforms {
      return Err(Invalid);
    }
    var compliance := None;
    if store.sdk.inspects(policyHash) {
      if v.body.None? {
        return Err(Invalid);
      }
      compliance := v.body;
    }
    if v.receipt.None? {
      return Err(Invalid);
    }
    var stored := store.StoreV2(Submission(recipient, header.id, policyHash, raw, v.receipt.value, header.expiry, compliance), storeOpen, forwardOpen, seen, at);
    match stored {
      case Err(e) => return Err(e);
      case Ok(receipt) => return Ok((header.id, receipt));
    }
  }
}
