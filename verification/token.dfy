/** internal/crypto: the structural and time checks on a lease token. */
module LeaseToken {
  import opened Wrappers
  import opened Text
  import opened Resource
  import opened Constraints
  import opened Attenuation
  import opened Domain

  const TOKEN_VERSION := 1
  const MAX_TOKEN_BYTES := 16384
  const MAX_VALUES := 64

  /** Whether a text not made by the control plane still has a well-formed token header: arbitrary. */
  const ReadableHeader: string -> bool

  /** TokenKeyID: the header of a token names a key. */
  predicate HeaderOk(token: Token) {
    match token case Signed(_) => true case Forged(text) => ReadableHeader(text)
  }

  /** Bytes of the compact encoding of signed claims: arbitrary. */
  const EncodedSize: LeaseClaims -> nat

  datatype TokenError =
    | BadConfiguration | InvalidToken | TokenExpired | NotYetValid | BadAudience | BadIssuer
    | MissingClaims | BadCapability | BadConfirmation | BadRoot | BadDelegation | BadTimes

  function Size(token: Token): nat {
    match token case Signed(claims) => EncodedSize(claims) case Forged(text) => ByteLen(text)
  }

  predicate CapabilityValues(values: seq<string>, resources: bool) {
    && |values| <= MAX_VALUES && NoDuplicates(values)
    && forall v | v in values :: v != "" && ByteLen(v) <= 256 && Trimmed(v) && (resources ==> ValidPattern(v))
  }

  lemma CapabilityValuesExtend(values: seq<string>, i: nat, resources: bool)
    requires i < |values| <= MAX_VALUES && CapabilityValues(values[..i], resources)
    requires values[i] != "" && ByteLen(values[i]) <= 256 && Trimmed(values[i]) && (resources ==> ValidPattern(values[i]))
    requires values[i] !in values[..i]
    ensures CapabilityValues(values[..i + 1], resources)
  {
    assert values[..i + 1] == values[..i] + [values[i]];
  }

  method ValidCapabilityValues(values: seq<string>, resources: bool) returns (r: bool)
    ensures r <==> CapabilityValues(values, resources)
  {
    if |values| > MAX_VALUES {
      return false;
    }
    var seen: set<string> := {};
    for i := 0 to |values|
      invariant seen == Elements(values[..i])
      invariant CapabilityValues(values[..i], resources)
    {
      var value := values[i];
      if value == "" || ByteLen(value) > 256 || !Trimmed(value) || (resources && !ValidPattern(value)) {
        assert value in values;
        return false;
      }
      if value in seen {
        var j :| 0 <= j < i && values[..i][j] == value;
        assert values[j] == values[i];
        return false;
      }
      ElementsOfPrefix(values, i);
      CapabilityValuesExtend(values, i, resources);
      seen := seen + {value};
    }
    assert values[..|values|] == values;
    r := true;
  }

  /** The registered-claim checks of the JWT library, with the options VerifyLeaseToken sets. */
  function TimeAndScope(claims: LeaseClaims, issuer: string, audience: string, leeway: Duration, now: Time):
    Result<(), TokenError>
  {
    if claims.expiresAt.Some? && now >= claims.expiresAt.value + leeway then Err(TokenExpired)
    else if claims.notBefore.Some? && now < claims.notBefore.value - leeway then Err(NotYetValid)
    else if audience !in claims.audience then Err(BadAudience)
    else if claims.issuer != issuer then Err(BadIssuer)
    else if claims.expiresAt.None? || claims.notBefore.None? then Err(InvalidToken)
    else if claims.issuedAt.Some? && now < claims.issuedAt.value - leeway then Err(InvalidToken)
    else Ok(())
  }

  predicate CapabilityOk(claims: LeaseClaims) {
    var ups := claims.ups;
    && ups.version == TOKEN_VERSION && ups.leaseId != "" && ups.rootLeaseId != "" && ups.rootWorkloadId != ""
    && ups.workloadId == claims.subject && ups.actions != [] && ups.resources != []
    && 0 <= ups.depth <= ups.maxDepth <= 16 && ups.maxUses >= 0 && Valid(ups.constraints)
    && CapabilityValues(ups.actions, false) && CapabilityValues(ups.resources, true)
  }

  function Structure(claims: LeaseClaims): Result<(), TokenError> {
    var ups := claims.ups;
    if claims.id == "" || claims.subject == "" || claims.issuedAt.None? || claims.notBefore.None?
       || claims.expiresAt.None? || |claims.audience| != 1 then Err(MissingClaims)
    else if !CapabilityOk(claims) then Err(BadCapability)
    else if claims.confirmation.Some? && ByteLen(claims.confirmation.value) != 43 then Err(BadConfirmation)
    else if ups.depth == 0 && (ups.parentLeaseId != "" || ups.delegatedByWorkloadId != ""
                               || ups.rootLeaseId != ups.leaseId || ups.rootWorkloadId != claims.subject) then Err(BadRoot)
    else if ups.depth != 0 && (ups.parentLeaseId == "" || ups.delegatedByWorkloadId == "") then Err(BadDelegation)
    else if claims.expiresAt.value <= claims.issuedAt.value || claims.notBefore.value < claims.issuedAt.value then Err(BadTimes)
    else Ok(())
  }

  /** The structure section of a lease token: complete registered claims for one audience, and a capability whose
      identifiers, lists, depths and lineage fit together. */
  ghost predicate WellFormedClaims(claims: LeaseClaims) {
    var ups := claims.ups;
    && claims.id != "" && claims.subject != "" && claims.issuedAt.Some? && claims.notBefore.Some? && claims.expiresAt.Some?
    && |claims.audience| == 1 && claims.issuedAt.value < claims.expiresAt.value && claims.issuedAt.value <= claims.notBefore.value
    && ups.version == 1 && ups.leaseId != "" && ups.rootLeaseId != "" && ups.rootWorkloadId != "" && ups.workloadId == claims.subject
    && 0 <= ups.depth <= ups.maxDepth <= 16 && ups.maxUses >= 0 && Valid(ups.constraints)
    && 1 <= |ups.actions| <= 64 && NoDuplicates(ups.actions) && 1 <= |ups.resources| <= 64 && NoDuplicates(ups.resources)
    && (forall a | a in ups.actions :: a != "" && ByteLen(a) <= 256 && Trimmed(a))
    && (forall p | p in ups.resources :: ValidPattern(p))
    && (claims.confirmation.Some? ==> ByteLen(claims.confirmation.value) == 43)
    && (if ups.depth == 0 then
          ups.parentLeaseId == "" && ups.delegatedByWorkloadId == "" && ups.rootLeaseId == ups.leaseId && ups.rootWorkloadId == claims.subject
        else ups.parentLeaseId != "" && ups.delegatedByWorkloadId != "")
  }

  lemma StructureExactly(claims: LeaseClaims)
    ensures Structure(claims).Ok? <==> WellFormedClaims(claims)
  {
    forall p | p in claims.ups.resources && ValidPattern(p) ensures p != "" && ByteLen(p) <= 256 && Trimmed(p) {
    }
  }

  /** A token verifies exactly when the control plane signed it, it is at most 16 KiB long, it is in time up to the
      leeway, it names this audience and issuer, and its claims are well formed; and then its claims are the answer. */
  lemma VerifiedExactly(token: Token, issuer: string, audience: string, leeway: Duration, now: Time)
    ensures var r := VerifyLeaseToken(token, issuer, audience, leeway, now);
            && (r.Ok? ==> token.Signed? && r.value == token.claims)
            && (r.Ok? <==>
                  && token.Signed? && EncodedSize(token.claims) <= 16384 && issuer != "" && audience != "" && leeway >= 0
                  && WellFormedClaims(token.claims) && token.claims.issuer == issuer && token.claims.audience == [audience]
                  && token.claims.issuedAt.value - leeway <= now && token.claims.notBefore.value - leeway <= now
                  && now < token.claims.expiresAt.value + leeway)
  {
    if token.Signed? {
      StructureExactly(token.claims);
    }
  }

  function VerifyLeaseToken(token: Token, issuer: string, audience: string, leeway: Duration, now: Time):
    Result<LeaseClaims, TokenError>
  {
    if Size(token) > MAX_TOKEN_BYTES || issuer == "" || audience == "" || leeway < 0 then Err(BadConfiguration)
    else match token
      case Forged(_) => Err(InvalidToken)
      case Signed(claims) =>
        var scope := TimeAndScope(claims, issuer, audience, leeway, now);
        if scope.Err? then Err(scope.error)
        else
          var shape := Structure(claims);
          if shape.Err? then Err(shape.error) else Ok(claims)
  }
}
