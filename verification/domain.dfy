/** internal/domain: the entities, with signatures and hashes idealised. */
module Domain {
  import opened Wrappers
  import opened Attenuation
  import opened Constraints

  type Id = string

  /** A 32-byte Ed25519 public key, named by its RFC 7638 thumbprint: 43 ASCII characters, one per key. */
  type Key = k: string | |k| == 43 && forall c | c in k :: c < '\U{80}' witness seq(43, i => 'A')

  datatype DomainError =
    | LeaseNotFound | WorkloadNotFound | InvalidLease | InvalidWorkload | InvalidAttenuation
    | Unauthenticated | ReplayDetected | LeaseRevoked | Conflict | AuthorityEscalation
    | MaxUsesExceeded | Internal

  datatype Grant = Grant(
    audiences: seq<string>, actions: seq<string>, resources: seq<string>, maxTtl: Duration,
    maxDelegationDepth: int, canDelegate: bool, requireProof: bool, maxUses: int,
    constraints: ConstraintMap, version: int)

  datatype PreviousKey = PreviousKey(key: Key, expiresAt: Time)

  datatype Workload = Workload(
    id: Id, name: string, publicKey: Key, previous: Option<PreviousKey>, createdAt: Time, updatedAt: Time,
    disabledAt: Option<Time>, grant: Grant)

  datatype CapabilityClaims = CapabilityClaims(
    version: int, leaseId: string, rootLeaseId: string, rootWorkloadId: string, workloadId: string,
    delegatedByWorkloadId: string, actions: seq<string>, resources: seq<string>, depth: int, maxDepth: int,
    parentLeaseId: string, maxUses: int, constraints: ConstraintMap)

  datatype LeaseClaims = LeaseClaims(
    ups: CapabilityClaims, confirmation: Option<string>, issuer: string, subject: string,
    audience: seq<string>, expiresAt: Option<Time>, issuedAt: Option<Time>, notBefore: Option<Time>, id: string)

  /** Only the control plane can make a Signed token; every other text is Forged. */
  datatype Token = Signed(claims: LeaseClaims) | Forged(text: string)

  /** SHA-256 of a token, without collisions. */
  datatype Digest = Sha256(of: Token)

  datatype Lease = Lease(
    id: Id, tokenId: Id, workload: Id, rootWorkload: Id, audience: string, parent: Option<Id>, rootLease: Id,
    delegatedBy: Option<Id>, actions: seq<string>, resources: seq<string>, expiration: Time, depth: int,
    maxDepth: int, tokenHash: Digest, issuedAt: Time, revokedAt: Option<Time>, grantVersion: int,
    confirmation: Option<Key>, maxUses: int, usesConsumed: int, constraints: ConstraintMap)

  datatype EventKind = Registered | KeyRotated | Disabled | RootMinted | Delegated | LineageRevoked

  datatype AuditEvent = AuditEvent(
    kind: EventKind, workload: Option<Id>, lease: Option<Id>, actor: string, revokedCount: nat, occurredAt: Time)

  /** Optional identifiers are written as empty strings inside tokens. */
  function IdText(id: Option<Id>): string {
    match id case None => "" case Some(value) => value
  }

  function ContextOf(lease: Lease): AuthorityContext {
    AuthorityContext(lease.actions, lease.resources, lease.expiration, lease.depth, lease.maxDepth, lease.maxUses, lease.constraints)
  }

  function GrantContextOf(grant: Grant): GrantContext {
    GrantContext(grant.audiences, grant.actions, grant.resources, grant.maxTtl, grant.maxDelegationDepth,
                 grant.canDelegate, grant.maxUses, grant.constraints)
  }
}
