/** internal/resource: resource patterns, values, coverage and inclusion. */
module Resource {
  import opened Wrappers
  import opened Text

  datatype ResourceError = Invalid | Duplicate | NotCanonical

  const MAX_BYTES := 256

  predicate CharacterOk(c: char) {
    !IsControl(c) && !IsSpace(c) && !(IsPatternSyntax(c) && c !in "-_.:@")
  }

  predicate SegmentOk(segment: string, index: nat, count: nat, wildcardAllowed: bool) {
    && segment != "" && segment != "." && segment != ".."
    && if segment == "*" then wildcardAllowed && index == count - 1 && index != 0
       else '*' !in segment && AllCharactersOk(segment)
  }

  predicate AllCharactersOk(segment: string) {
    forall c | c in segment :: CharacterOk(c)
  }

  predicate SegmentsOk(segments: seq<string>, wildcardAllowed: bool) {
    forall i | 0 <= i < |segments| :: SegmentOk(segments[i], i, |segments|, wildcardAllowed)
  }

  predicate DoubleSlash(s: string) {
    exists i | 0 <= i < |s| - 1 :: s[i] == '/' && s[i + 1] == '/'
  }

  /** The decision of canonicalize, with its three outcomes in the order the code reaches them. */
  function Canonical(value: string, wildcardAllowed: bool): Result<string, ResourceError> {
    if value == "" || ByteLen(value) > MAX_BYTES || !Trimmed(value) then Err(Invalid)
    else if (exists c :: c in value && c in "%\\?#") || value[0] == '/' || value[|value| - 1] == '/' || DoubleSlash(value) then Err(Invalid)
    else if !Nfc(value) then Err(NotCanonical)
    else if SegmentsOk(Split(value), wildcardAllowed) then Ok(value)
    else Err(Invalid)
  }

  predicate ValidPattern(value: string) {
    Canonical(value, true).Ok?
  }

  predicate ValidValue(value: string) {
    Canonical(value, false).Ok?
  }

  method Canonicalize(value: string, wildcardAllowed: bool) returns (r: Result<string, ResourceError>)
    ensures r == Canonical(value, wildcardAllowed)
  {
    if value == "" || ByteLen(value) > MAX_BYTES || !Trimmed(value) {
      return Err(Invalid);
    }
    if (exists c :: c in value && c in "%\\?#") || value[0] == '/' || value[|value| - 1] == '/' || DoubleSlash(value) {
      return Err(Invalid);
    }
    if !Nfc(value) {
      return Err(NotCanonical);
    }
    var ok := CheckSegments(Split(value), wildcardAllowed);
    r := if ok then Ok(value) else Err(Invalid);
  }

  method CheckSegments(segments: seq<string>, wildcardAllowed: bool) returns (ok: bool)
    ensures ok == SegmentsOk(segments, wildcardAllowed)
  {
    for index := 0 to |segments|
      invariant forall i | 0 <= i < index :: SegmentOk(segments[i], i, |segments|, wildcardAllowed)
    {
      var segment := segments[index];
      if segment == "" || segment == "." || segment == ".." {
        return false;
      }
      if segment == "*" {
        if !wildcardAllowed || index != |segments| - 1 || index == 0 {
          return false;
        }
        continue;
      }
      if '*' in segment {
        return false;
      }
      var plain := CheckCharacters(segment);
      if !plain {
        return false;
      }
    }
    ok := true;
  }

  method CheckCharacters(segment: string) returns (ok: bool)
    ensures ok == AllCharactersOk(segment)
  {
    for j := 0 to |segment|
      invariant forall i | 0 <= i < j :: CharacterOk(segment[i])
    {
      if !CharacterOk(segment[j]) {
        return false;
      }
    }
    ok := true;
  }

  /** What CanonicalizePatterns accepts: a nonempty list of distinct valid patterns. */
  predicate CanonicalList(values: seq<string>) {
    values != [] && NoDuplicates(values) && forall v | v in values :: ValidPattern(v)
  }

  /** The first entry at fault, and why: it is not a valid pattern, or it repeats an earlier one. */
  ghost predicate FaultAt(values: seq<string>, i: nat, error: ResourceError) {
    && i < |values| && NoDuplicates(values[..i]) && (forall v | v in values[..i] :: ValidPattern(v))
    && (Canonical(values[i], true) == Err(error)
        || (ValidPattern(values[i]) && values[i] in values[..i] && error == Duplicate))
  }

  method CanonicalizePatterns(values: seq<string>) returns (r: Result<seq<string>, ResourceError>)
    ensures r.Ok? <==> CanonicalList(values)
    ensures r.Ok? ==> r.value == values
    ensures r.Err? ==> if values == [] then r.error == Invalid else exists i :: FaultAt(values, i, r.error)
  {
    if values == [] {
      return Err(Invalid);
    }
    var result: seq<string> := [];
    var seen: set<string> := {};
    for i := 0 to |values|
      invariant result == values[..i]
      invariant forall v :: v in seen <==> v in result
      invariant NoDuplicates(result)
      invariant forall v | v in result :: ValidPattern(v)
    {
      var canonical := Canonicalize(values[i], true);
      if canonical.Err? {
        assert FaultAt(values, i, canonical.error) && values[i] in values;
        return Err(canonical.error);
      }
      if canonical.value in seen {
        var j :| 0 <= j < |result| && result[j] == values[i];
        assert values[j] == values[i] && FaultAt(values, i, Duplicate);
        return Err(Duplicate);
      }
      seen := seen + {canonical.value};
      result := result + [canonical.value];
    }
    r := Ok(result);
  }

  function TrimStar(s: string): string {
    if s != "" && s[|s| - 1] == '*' then s[..|s| - 1] else s
  }

  predicate Covers(parentPattern: string, childPattern: string) {
    && ValidPattern(parentPattern)
    && ValidPattern(childPattern)
    && (parentPattern == childPattern
        || (HasSuffix(parentPattern, "/*")
            && TrimStar(parentPattern) <= childPattern && |childPattern| > |TrimStar(parentPattern)|))
  }

  predicate Allows(pattern: string, value: string) {
    && ValidPattern(pattern)
    && ValidValue(value)
    && (pattern == value
        || (HasSuffix(pattern, "/*") && TrimStar(pattern) <= value && |value| > |TrimStar(pattern)|))
  }

  /** The values some entry of a list allows. */
  predicate AnyAllows(patterns: seq<string>, value: string) {
    exists p | p in patterns :: Allows(p, value)
  }

  predicate CoveredBySome(parent: seq<string>, child: string) {
    exists ancestor | ancestor in parent :: Covers(ancestor, child)
  }

  predicate SubsetOf(candidate: seq<string>, parent: seq<string>) {
    forall child | child in candidate :: CoveredBySome(parent, child)
  }

  method Subset(candidate: seq<string>, parent: seq<string>) returns (r: bool)
    ensures r == SubsetOf(candidate, parent)
  {
    for i := 0 to |candidate|
      invariant forall k | 0 <= k < i :: CoveredBySome(parent, candidate[k])
    {
      var covered := false;
      for j := 0 to |parent|
        invariant !covered
        invariant forall k | 0 <= k < j :: !Covers(parent[k], candidate[i])
      {
        if Covers(parent[j], candidate[i]) {
          covered := true;
          break;
        }
      }
      if !covered {
        assert candidate[i] in candidate;
        return false;
      }
    }
    r := true;
  }
}
