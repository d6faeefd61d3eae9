/** internal/attenuation: when a requested authority stays inside a grant or a parent authority. */
module Attenuation {
  import opened Wrappers
  import opened Text
  import opened Resource
  import opened Constraints

  /** Nanoseconds since Go's zero time, so that IsZero is equality with 0. */
  type Time = int
  type Duration = int

  const SECOND: Duration := 1_000_000_000
  const MINUTE: Duration := 60 * SECOND

  /** time.Time.Truncate(time.Second) */
  function WholeSecond(t: Time): Time {
    t - t % SECOND
  }

  datatype AttenuationError =
    | InvalidDepth | MaxDepthExceeded | MaxDepthExpanded | ExpirationExtended | ActionsExpanded
    | ResourcesExpanded | NotStrict | InvalidContext | AudienceExpanded | TtlExpanded
    | DelegationForbidden | UsesExpanded | StatefulDelegation | ConstraintsWeakened

  datatype GrantContext = GrantContext(
    audiences: seq<string>, actions: seq<string>, resources: seq<string>, maxTtl: Duration,
    maxDelegationDepth: int, canDelegate: bool, maxUses: int, constraints: ConstraintMap)

  datatype AuthorityContext = AuthorityContext(
    actions: seq<string>, resources: seq<string>, expiration: Time, depth: int, maxDepth: int,
    maxUses: int, constraints: ConstraintMap)

  const MAX_INT := 0x7FFF_FFFF_FFFF_FFFF

  predicate PlainDistinct(values: seq<string>) {
    NoDuplicates(values) && forall v | v in values :: v != "" && Trimmed(v)
  }

  lemma PlainDistinctExtends(values: seq<string>, i: nat)
    requires i < |values| && PlainDistinct(values[..i])
    requires values[i] != "" && Trimmed(values[i]) && values[i] !in values[..i]
    ensures PlainDistinct(values[..i + 1])
  {
    assert values[..i + 1] == values[..i] + [values[i]];
  }

  method HasEmptyOrDuplicate(values: seq<string>) returns (r: bool)
    ensures r <==> !PlainDistinct(values)
  {
    var seen: set<string> := {};
    for i := 0 to |values|
      invariant seen == Elements(values[..i])
      invariant PlainDistinct(values[..i])
    {
      var value := values[i];
      if value == "" || !Trimmed(value) {
        assert value in values;
        return true;
      }
      if value in seen {
        var j :| 0 <= j < i && values[..i][j] == value;
        assert values[j] == values[i];
        return true;
      }
      ElementsOfPrefix(values, i);
      PlainDistinctExtends(values, i);
      seen := seen + {value};
    }
    assert values[..|values|] == values;
    r := false;
  }

  method ToSet(values: seq<string>) returns (r: set<string>)
    ensures r == Elements(values)
  {
    r := {};
    for i := 0 to |values|
      invariant r == Elements(values[..i])
    {
      ElementsOfPrefix(values, i);
      r := r + {values[i]};
    }
    assert values[..|values|] == values;
  }

  predicate ContextOk(context: AuthorityContext) {
    && 0 <= context.depth <= context.maxDepth && context.maxUses >= 0 && context.expiration != 0
    && Valid(context.constraints)
    && PlainDistinct(context.actions) && PlainDistinct(context.resources)
    && forall p | p in context.resources :: ValidPattern(p)
  }

  function ValidateRoot(grant: GrantContext, audience: string, requested: AuthorityContext, issuedAt: Time):
    Result<(), AttenuationError>
  {
    if grant.maxTtl <= 0 || grant.maxDelegationDepth < 0 || grant.maxDelegationDepth > 16 || grant.maxUses < 0 || issuedAt == 0
    then Err(InvalidContext)
    else if !PlainDistinct(grant.audiences) || !PlainDistinct(grant.actions) || !PlainDistinct(grant.resources)
    then Err(InvalidContext)
    else if !AtLeastAsStrong(grant.constraints, requested.constraints) then Err(ConstraintsWeakened)
    else if exists p | p in grant.resources :: !ValidPattern(p) then Err(InvalidContext)
    else if audience !in grant.audiences then Err(AudienceExpanded)
    else if requested.depth != 0 || requested.maxDepth > grant.maxDelegationDepth then Err(MaxDepthExpanded)
    else if requested.maxDepth > 0 && !grant.canDelegate then Err(DelegationForbidden)
    else if requested.maxUses > 0 && requested.maxDepth > 0 then Err(StatefulDelegation)
    else if grant.maxUses > 0 && (requested.maxUses == 0 || requested.maxUses > grant.maxUses) then Err(UsesExpanded)
    else if requested.expiration > issuedAt + grant.maxTtl then Err(TtlExpanded)
    else if !ContextOk(requested) then Err(InvalidContext)
    else if !(Elements(requested.actions) <= Elements(grant.actions)) then Err(ActionsExpanded)
    else if !SubsetOf(requested.resources, grant.resources) then Err(ResourcesExpanded)
    else Ok(())
  }

  predicate SameAuthority(parent: AuthorityContext, child: AuthorityContext) {
    && Elements(child.actions) == Elements(parent.actions)
    && Elements(child.resources) == Elements(parent.resources)
    && child.expiration == parent.expiration && child.maxDepth == parent.maxDepth
    && child.maxUses == parent.maxUses && Equal(parent.constraints, child.constraints)
  }

  function Validate(parent: AuthorityContext, child: AuthorityContext): Result<(), AttenuationError> {
    if !ContextOk(parent) || !ContextOk(child) then Err(InvalidContext)
    else if parent.maxUses > 0 then Err(StatefulDelegation)
    else if parent.depth == MAX_INT || child.depth != parent.depth + 1 then Err(InvalidDepth)
    else if child.depth > parent.maxDepth then Err(MaxDepthExceeded)
    else if child.maxDepth > parent.maxDepth then Err(MaxDepthExpanded)
    else if child.maxDepth < child.depth then Err(InvalidContext)
    else if child.expiration > parent.expiration then Err(ExpirationExtended)
    else if child.maxUses > 0 && child.maxDepth != child.depth then Err(StatefulDelegation)
    else if !AtLeastAsStrong(parent.constraints, child.constraints) then Err(ConstraintsWeakened)
    else if !(Elements(child.actions) <= Elements(parent.actions)) then Err(ActionsExpanded)
    else if !SubsetOf(child.resources, parent.resources) then Err(ResourcesExpanded)
    else if SameAuthority(parent, child) then Err(NotStrict)
    else Ok(())
  }
}

/** What an authority admits, and that the syntactic checks decide exactly its inclusion. */
module AttenuationMeaning {
  import opened Wrappers
  import opened Text
  import opened Resource
  import opened ResourceLanguage
  import opened Constraints
  import opened Attenuation

  datatype Demand = Demand(action: string, value: string, facts: ConstraintMap, at: Time)

  ghost predicate Admits(context: AuthorityContext, d: Demand) {
    && d.action in context.actions && AnyAllows(context.resources, d.value)
    && Satisfied(context.constraints, d.facts) && d.at < context.expiration
  }

  ghost predicate Narrows(parent: AuthorityContext, child: AuthorityContext) {
    forall d: Demand :: Admits(child, d) ==> Admits(parent, d)
  }

  /** The four comparisons Validate makes between two authorities. */
  ghost predicate Compared(parent: AuthorityContext, child: AuthorityContext) {
    && child.expiration <= parent.expiration
    && AtLeastAsStrong(parent.constraints, child.constraints)
    && Elements(child.actions) <= Elements(parent.actions)
    && SubsetOf(child.resources, parent.resources)
  }

  lemma ComparedNarrows(parent: AuthorityContext, child: AuthorityContext)
    requires Compared(parent, child)
    ensures Narrows(parent, child)
  {
    SubsetSound(child.resources, parent.resources);
    StrengthIsInclusion(parent.constraints, child.constraints);
    forall d: Demand | Admits(child, d) ensures Admits(parent, d) {
      assert d.action in Elements(child.actions);
    }
  }

  /** The comparisons are complete as well: an authority that admits nothing more passes them. */
  lemma NarrowsCompared(parent: AuthorityContext, child: AuthorityContext)
    requires NfcLaws()
    requires Valid(parent.constraints) && ContextOk(child) && child.actions != [] && child.resources != []
    requires |parent.resources| < FINAL_CHARACTERS
    requires Narrows(parent, child)
    ensures Compared(parent, child)
  {
    var action := child.actions[0];
    var value := PatternNotEmpty(child.resources[0]);
    SatisfiesItself(child.constraints);
    var sample := Demand(action, value, child.constraints, child.expiration - 1);
    assert Admits(child, sample);
    assert Admits(parent, sample);
    forall a | a in child.actions ensures a in parent.actions {
      assert Admits(child, sample.(action := a));
    }
    forall v: string | AnyAllows(child.resources, v) ensures AnyAllows(parent.resources, v) {
      assert Admits(child, sample.(value := v));
    }
    SubsetIsInclusion(child.resources, parent.resources);
    forall f: ConstraintMap | Satisfied(child.constraints, f) ensures Satisfied(parent.constraints, f) {
      assert Admits(child, sample.(facts := f));
    }
    StrengthIsInclusion(parent.constraints, child.constraints);
  }

  /** The depth and use rules of Validate, which are not about single requests. */
  ghost predicate LineageRules(parent: AuthorityContext, child: AuthorityContext) {
    && parent.maxUses == 0 && parent.depth != MAX_INT && child.depth == parent.depth + 1
    && child.depth <= child.maxDepth <= parent.maxDepth
    && (child.maxUses > 0 ==> child.maxDepth == child.depth)
  }

  lemma ComparedExactly(parent: AuthorityContext, child: AuthorityContext)
    requires NfcLaws()
    requires Valid(parent.constraints) && ContextOk(child) && child.actions != [] && child.resources != []
    requires |parent.resources| < FINAL_CHARACTERS
    ensures Compared(parent, child) <==> Narrows(parent, child)
  {
    if Compared(parent, child) {
      ComparedNarrows(parent, child);
    }
    if Narrows(parent, child) {
      NarrowsCompared(parent, child);
    }
  }

  /** Entries are distinct, nonempty and free of padding. */
  ghost predicate PlainList(values: seq<string>) {
    && (forall i, j | 0 <= i < j < |values| :: values[i] != values[j])
    && (forall v | v in values :: v != "" && !IsSpace(v[0]) && !IsSpace(v[|v| - 1]))
  }

  /** What validateContext accepts. */
  ghost predicate PlainAuthority(context: AuthorityContext) {
    && 0 <= context.depth <= context.maxDepth && context.maxUses >= 0 && context.expiration != 0 && Valid(context.constraints)
    && PlainList(context.actions) && PlainList(context.resources) && (forall p | p in context.resources :: ValidPattern(p))
  }

  lemma ContextOkExactly(context: AuthorityContext)
    ensures ContextOk(context) <==> PlainAuthority(context)
  {
  }

  /** Two authorities written alike, up to the order of their lists. */
  ghost predicate WrittenAlike(a: AuthorityContext, b: AuthorityContext) {
    && (forall v :: v in a.actions <==> v in b.actions) && (forall v :: v in a.resources <==> v in b.resources)
    && a.expiration == b.expiration && a.maxDepth == b.maxDepth && a.maxUses == b.maxUses && a.constraints == b.constraints
  }

  lemma SameAuthorityExactly(parent: AuthorityContext, child: AuthorityContext)
    requires Valid(parent.constraints)
    ensures SameAuthority(parent, child) <==> WrittenAlike(parent, child)
  {
    EqualIsEquality(parent.constraints, child.constraints);
    if SameAuthority(parent, child) {
      forall v ensures (v in parent.actions <==> v in child.actions) && (v in parent.resources <==> v in child.resources) {
        assert v in Elements(parent.actions) <==> v in Elements(child.actions);
        assert v in Elements(parent.resources) <==> v in Elements(child.resources);
      }
    }
  }

  /** Validate accepts exactly the children that admit nothing their parent refuses, under the
      lineage rules, and that are not written identically. */
  lemma ValidateIsInclusion(parent: AuthorityContext, child: AuthorityContext)
    requires NfcLaws()
    requires child.actions != [] && child.resources != [] && |parent.resources| < FINAL_CHARACTERS
    ensures Validate(parent, child).Ok?
            <==> PlainAuthority(parent) && PlainAuthority(child) && LineageRules(parent, child) && Narrows(parent, child)
                 && !WrittenAlike(parent, child)
  {
    ContextOkExactly(parent);
    ContextOkExactly(child);
    ValidateIsRules(parent, child);
    if ContextOk(parent) && ContextOk(child) {
      ComparedExactly(parent, child);
      SameAuthorityExactly(parent, child);
    }
  }

  /** The checks of Validate without their order. */
  lemma ValidateIsRules(parent: AuthorityContext, child: AuthorityContext)
    ensures Validate(parent, child).Ok?
            <==> ContextOk(parent) && ContextOk(child) && LineageRules(parent, child) && Compared(parent, child) && !SameAuthority(parent, child)
  {
  }

  /** What a grant gives a root lease issued at some moment, read as an authority. */
  function GrantAuthority(grant: GrantContext, issuedAt: Time): AuthorityContext {
    AuthorityContext(grant.actions, grant.resources, issuedAt + grant.maxTtl, 0, grant.maxDelegationDepth, grant.maxUses, grant.constraints)
  }

  ghost predicate GrantOk(grant: GrantContext) {
    && grant.maxTtl > 0 && 0 <= grant.maxDelegationDepth <= 16 && grant.maxUses >= 0
    && PlainList(grant.audiences) && PlainList(grant.actions) && PlainList(grant.resources)
    && Valid(grant.constraints) && forall p | p in grant.resources :: ValidPattern(p)
  }

  /** The rules of ValidateRoot that are not about single requests. */
  ghost predicate RootRules(grant: GrantContext, requested: AuthorityContext) {
    && requested.depth == 0 && requested.maxDepth <= grant.maxDelegationDepth
    && (requested.maxDepth > 0 ==> grant.canDelegate && requested.maxUses == 0)
    && (grant.maxUses > 0 ==> 0 < requested.maxUses <= grant.maxUses)
  }

  /** ValidateRoot accepts exactly the roots that admit nothing their grant refuses, for an audience of the grant
      and under its depth and use rules. */
  lemma ValidateRootIsInclusion(grant: GrantContext, audience: string, requested: AuthorityContext, issuedAt: Time)
    requires NfcLaws()
    requires requested.actions != [] && requested.resources != [] && |grant.resources| < FINAL_CHARACTERS
    ensures ValidateRoot(grant, audience, requested, issuedAt).Ok?
            <==> GrantOk(grant) && issuedAt != 0 && PlainAuthority(requested) && audience in grant.audiences
                 && RootRules(grant, requested) && Narrows(GrantAuthority(grant, issuedAt), requested)
  {
    ContextOkExactly(requested);
    if GrantOk(grant) && ContextOk(requested) {
      ComparedExactly(GrantAuthority(grant, issuedAt), requested);
    }
  }

  /** Some entry of child is no entry of parent; for resources, no entry of parent covers it. */
  ghost predicate ActionAdded(parent: seq<string>, child: seq<string>) {
    exists a | a in child :: a !in parent
  }

  ghost predicate ResourceAdded(parent: seq<string>, child: seq<string>) {
    exists c | c in child :: forall p | p in parent :: !Covers(p, c)
  }

  /** A root refused by ValidateRoot commits the fault it is refused for. */
  lemma RootRefusedForItsFault(grant: GrantContext, audience: string, requested: AuthorityContext, issuedAt: Time)
    requires ValidateRoot(grant, audience, requested, issuedAt).Err?
    ensures match ValidateRoot(grant, audience, requested, issuedAt).error
      case InvalidContext => !GrantOk(grant) || issuedAt == 0 || !PlainAuthority(requested)
      case ConstraintsWeakened => !AtLeastAsStrong(grant.constraints, requested.constraints)
      case AudienceExpanded => audience !in grant.audiences
      case MaxDepthExpanded => requested.depth != 0 || requested.maxDepth > grant.maxDelegationDepth
      case DelegationForbidden => requested.maxDepth > 0 && !grant.canDelegate
      case StatefulDelegation => requested.maxUses > 0 && requested.maxDepth > 0
      case UsesExpanded => grant.maxUses > 0 && !(0 < requested.maxUses <= grant.maxUses)
      case TtlExpanded => requested.expiration - issuedAt > grant.maxTtl
      case ActionsExpanded => ActionAdded(grant.actions, requested.actions)
      case ResourcesExpanded => ResourceAdded(grant.resources, requested.resources)
      case _ => false
  {
    ContextOkExactly(requested);
  }

  /** A child refused by Validate commits the fault it is refused for. */
  lemma ChildRefusedForItsFault(parent: AuthorityContext, child: AuthorityContext)
    requires Validate(parent, child).Err?
    ensures match Validate(parent, child).error
      case InvalidContext => !PlainAuthority(parent) || !PlainAuthority(child)
      case StatefulDelegation => parent.maxUses > 0 || (child.maxUses > 0 && child.maxDepth > child.depth)
      case InvalidDepth => parent.depth == MAX_INT || child.depth != parent.depth + 1
      case MaxDepthExceeded => child.depth > parent.maxDepth
      case MaxDepthExpanded => child.maxDepth > parent.maxDepth
      case ExpirationExtended => child.expiration > parent.expiration
      case ConstraintsWeakened => !AtLeastAsStrong(parent.constraints, child.constraints)
      case ActionsExpanded => ActionAdded(parent.actions, child.actions)
      case ResourcesExpanded => ResourceAdded(parent.resources, child.resources)
      case NotStrict => WrittenAlike(parent, child)
      case _ => false
  {
    match Validate(parent, child).error {
      case InvalidContext =>
        ContextOkExactly(parent);
        ContextOkExactly(child);
      case NotStrict => SameAuthorityExactly(parent, child);
      case _ =>
    }
  }

  /** An accepted child may still mean the same as its parent: strictness is of the text. It is strict in
      meaning exactly when the comparisons fail in the other direction. */
  lemma StrictnessExact(parent: AuthorityContext, child: AuthorityContext)
    requires NfcLaws()
    requires Validate(parent, child).Ok?
    requires parent.actions != [] && parent.resources != [] && |child.resources| < FINAL_CHARACTERS
    ensures (exists d: Demand :: Admits(parent, d) && !Admits(child, d)) <==> !Compared(child, parent)
  {
    if Compared(child, parent) {
      ComparedNarrows(child, parent);
    }
    if Narrows(child, parent) {
      NarrowsCompared(child, parent);
    }
  }

  function WithResources(action: string, resources: seq<string>, expiration: Time, depth: nat): AuthorityContext {
    AuthorityContext([action], resources, expiration, depth, 1, 0, map[])
  }

  /** Dropping an entry that another entry covers is accepted although nothing is given up. */
  lemma CoveredEntryIsDroppable(action: string, wide: string, narrow: string, expiration: Time)
    requires action != "" && Trimmed(action) && expiration != 0 && Covers(wide, narrow) && wide != narrow
    ensures var parent, child := WithResources(action, [wide, narrow], expiration, 0), WithResources(action, [wide], expiration, 1);
            Validate(parent, child).Ok? && Narrows(parent, child) && Narrows(child, parent)
  {
    var parent, child := WithResources(action, [wide, narrow], expiration, 0), WithResources(action, [wide], expiration, 1);
    assert Covers(wide, wide) && Valid(map[]);
    assert wide in parent.resources && wide in child.resources;
    assert CoveredBySome(parent.resources, wide) && CoveredBySome(child.resources, wide) && CoveredBySome(child.resources, narrow);
    assert narrow in Elements(parent.resources) && narrow !in Elements(child.resources);
    ComparedNarrows(parent, child);
    ComparedNarrows(child, parent);
  }

  /** A concrete pair: from "a/b" beside the wildcard over "a" down to the wildcard alone. */
  lemma StrictnessIsOfTheText(expiration: Time)
    requires Nfc("a/*") && Nfc("a/b") && expiration != 0
    ensures var parent, child := WithResources("r", ["a/*", "a/b"], expiration, 0), WithResources("r", ["a/*"], expiration, 1);
            Validate(parent, child).Ok? && Narrows(parent, child) && Narrows(child, parent)
  {
    SmallPatterns();
    LetterOk('r');
    assert "a/*"[2] != "a/b"[2];
    CoveredEntryIsDroppable("r", "a/*", "a/b", expiration);
  }

  lemma SmallPatterns()
    requires Nfc("a/*") && Nfc("a/b")
    ensures Covers("a/*", "a/*") && Covers("a/*", "a/b")
  {
    assert "a/*" == ['a'] + ['/'] + ['*'] && "a/b" == ['a'] + ['/'] + ['b'];
    SmallPattern('a', '*');
    SmallPattern('a', 'b');
    assert TrimStar("a/*") == "a/";
  }

  lemma SmallPattern(x: char, c: char)
    requires 'a' <= x <= 'z' && (c == '*' || 'a' <= c <= 'z')
    requires Nfc([x] + ['/'] + [c])
    ensures ValidPattern([x] + ['/'] + [c])
  {
    var p := [x] + ['/'] + [c];
    SmallPatternText(x, c);
    SmallSegments(x, c);
    assert p[0] == x && p[1] == '/' && p[2] == c && |p| == 3;
  }

  lemma SmallPatternText(x: char, c: char)
    requires 'a' <= x <= 'z' && (c == '*' || 'a' <= c <= 'z')
    ensures ByteLen([x] + ['/'] + [c]) == 3 && !IsSpace(x) && !IsSpace(c) && !DoubleSlash([x] + ['/'] + [c])
  {
    ByteLenAppend("", x);
    ByteLenAppend([x], '/');
    ByteLenAppend([x] + ['/'], c);
    assert [x] == "" + [x];
    PrintableNotSpace(c);
    LetterOk(x);
  }

  lemma SmallSegments(x: char, c: char)
    requires 'a' <= x <= 'z' && (c == '*' || 'a' <= c <= 'z')
    ensures Split([x] + ['/'] + [c]) == [[x], [c]] && SegmentOk([x], 0, 2, true) && SegmentOk([c], 1, 2, true)
  {
    SplitAtSlash([x], [c]);
    SplitPlain([x]);
    SplitPlain([c]);
    LetterOk(x);
    if c != '*' { LetterOk(c); }
    SmallSegment([x], x, 0);
    SmallSegment([c], c, 1);
  }

  lemma SmallSegment(segment: string, c: char, index: nat)
    requires segment == [c] && index < 2 && (('a' <= c <= 'z' && CharacterOk(c)) || (c == '*' && index == 1))
    ensures SegmentOk(segment, index, 2, true)
  {
  }

  lemma PrintableNotSpace(c: char)
    requires 32 < c as int < 127
    ensures !IsSpace(c)
  {
  }

  lemma LetterOk(c: char)
    requires 'a' <= c <= 'z'
    ensures CharacterOk(c) && !IsSpace(c) && c as int < 128
  {
  }
}
