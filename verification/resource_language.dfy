/** What patterns mean, and that Covers and Subset decide exactly inclusion of meanings. */
module ResourceLanguage {
  import opened Wrappers
  import opened Text
  import opened Resource

  /** Every value the first pattern list allows, the second allows. */
  ghost predicate Included(candidate: seq<string>, parent: seq<string>) {
    forall value: string :: AnyAllows(candidate, value) ==> AnyAllows(parent, value)
  }

  // ---- Meaning of one pattern, in segments ----

  /** A pattern whose final segment is a star matches every proper extension of its other segments. */
  ghost predicate SegmentMatch(pattern: string, value: string) {
    var segments := Split(pattern);
    pattern == value || (segments[|segments| - 1] == "*" && segments[..|segments| - 1] < Split(value))
  }

  /** The text before the slash and star that end a wildcard pattern. */
  function Stem(pattern: string): string
    requires HasSuffix(pattern, "/*")
  {
    pattern[..|pattern| - 2]
  }

  lemma WildcardShape(pattern: string)
    requires ValidPattern(pattern)
    ensures HasSuffix(pattern, "/*") <==> Split(pattern)[|Split(pattern)| - 1] == "*"
    ensures HasSuffix(pattern, "/*") ==>
              && Stem(pattern) != ""
              && pattern == Stem(pattern) + "/*"
              && TrimStar(pattern) == Stem(pattern) + "/"
              && Split(pattern) == Split(Stem(pattern)) + ["*"]
  {
    if HasSuffix(pattern, "/*") {
      assert pattern == Stem(pattern) + ['/'] + "*";
      SplitAtSlash(Stem(pattern), "*");
      SplitPlain("*");
    } else if Split(pattern)[|Split(pattern)| - 1] == "*" {
      var segments := Split(pattern);
      assert SegmentOk(segments[|segments| - 1], |segments| - 1, |segments|, true);
      LastSegment(pattern);
      assert false;
    }
  }

  /** The last segment is what follows the last slash. */
  lemma {:induction false} LastSegment(s: string)
    ensures var last := Split(s)[|Split(s)| - 1];
            && |last| <= |s| && s[|s| - |last|..] == last
            && (|Split(s)| > 1 ==> |last| < |s| && s[|s| - |last| - 1] == '/')
            && (|Split(s)| == 1 ==> last == s)
  {
    if s != "" {
      LastSegment(s[1..]);
      SplitCons(s[0], s[1..]);
      assert s == [s[0]] + s[1..];
      var rest := Split(s[1..]);
      if |rest| > 1 {
        assert Split(s)[|Split(s)| - 1] == rest[|rest| - 1];
      }
    }
  }

  /** Prefix comparison of the text agrees with matching whole segments. */
  lemma AllowsMeansSegments(pattern: string, value: string)
    requires ValidPattern(pattern) && ValidValue(value)
    ensures Allows(pattern, value) <==> SegmentMatch(pattern, value)
  {
    WildcardShape(pattern);
    if HasSuffix(pattern, "/*") {
      SlashPrefixMeansSegmentPrefix(Stem(pattern), value);
      assert Split(pattern)[..|Split(pattern)| - 1] == Split(Stem(pattern));
      if (Stem(pattern) + "/") <= value {
        assert value[|value| - 1] != '/';
      }
    }
  }

  /** What validity gives a reader of segments: none is empty or a traversal, the characters a decoder or a glob could
      read otherwise do not occur, and a star is only a whole final segment of a pattern. */
  lemma NoTraversal(value: string, k: nat)
    requires ValidPattern(value) && k < |Split(value)|
    ensures 1 <= ByteLen(value) <= 256 && Nfc(value)
    ensures var segment := Split(value)[k];
            && segment != "" && segment != "." && segment != ".." && (segment == "*" ==> 0 < k == |Split(value)| - 1)
            && (segment != "*" ==>
                  forall c | c in segment :: c != '*' && !IsControl(c) && !IsSpace(c) && (IsPatternSyntax(c) ==> c in ['-', '_', '.', ':', '@']))
    ensures forall c | c in value :: c != '%' && c != '\\' && c != '?' && c != '#'
  {
    assert SegmentOk(Split(value)[k], k, |Split(value)|, true);
    ByteLenConcat("", value);
    assert "" + value == value;
  }

  /** A value is a pattern without a star. */
  lemma ValueIsStarless(value: string)
    ensures ValidValue(value) <==> ValidPattern(value) && Split(value)[|Split(value)| - 1] != "*"
  {
    var segments := Split(value);
    if ValidValue(value) {
      ValidValueIsPattern(value);
      assert SegmentOk(segments[|segments| - 1], |segments| - 1, |segments|, false);
    }
    if ValidPattern(value) && segments[|segments| - 1] != "*" {
      forall k | 0 <= k < |segments| ensures SegmentOk(segments[k], k, |segments|, false) {
        assert SegmentOk(segments[k], k, |segments|, true);
      }
    }
  }

  // ---- Soundness ----

  lemma CoversSound(parent: string, child: string, value: string)
    requires Covers(parent, child) && Allows(child, value)
    ensures Allows(parent, value)
  {
    if parent != child && child != value {
      var p, c := TrimStar(parent), TrimStar(child);
      assert p <= child && |child| > |p| && c == child[..|child| - 1];
      assert p <= c;
    }
  }

  lemma SubsetSound(candidate: seq<string>, parent: seq<string>)
    requires SubsetOf(candidate, parent)
    ensures Included(candidate, parent)
  {
    forall value | AnyAllows(candidate, value) ensures AnyAllows(parent, value) {
      var child :| child in candidate && Allows(child, value);
      assert CoveredBySome(parent, child);
      var ancestor :| ancestor in parent && Covers(ancestor, child);
      CoversSound(ancestor, child, value);
    }
  }

  // ---- Completeness: more final segments than the list has entries ----

  const FINAL_CHARACTERS := 66

  /** 66 one-byte characters, each a valid final segment on its own. */
  function FinalCharacter(i: nat): (c: char)
    requires i < FINAL_CHARACTERS
    ensures c < '\U{80}' && c != '.' && c != '*' && c != '/' && CharacterOk(c)
  {
    if i < 26 then ('a' as int + i) as char
    else if i < 52 then ('A' as int + i - 26) as char
    else if i < 63 then ('0' as int + i - 52) as char
    else if i == 63 then '-'
    else if i == 64 then '@'
    else '_'
  }

  lemma FinalCharactersDiffer(i: nat, j: nat)
    requires i < j < FINAL_CHARACTERS
    ensures FinalCharacter(i) != FinalCharacter(j)
  {
  }

  lemma FinalSegmentText(stem: string, c: char)
    requires NfcLaws() && stem != "" && c < '\U{80}' && CharacterOk(c) && c != '/'
    requires ValidPattern(stem + "/" + "*")
    ensures var value := stem + "/" + [c];
            && ByteLen(value) <= MAX_BYTES && Trimmed(value) && value[0] != '/' && value[|value| - 1] != '/'
            && !DoubleSlash(value) && Nfc(value) && !(exists d :: d in value && d in "%\\?#")
  {
    var head := stem + "/";
    var pattern, value := head + "*", head + [c];
    ByteLenAppend(head, '*');
    ByteLenAppend(head, c);
    assert pattern[0] == value[0] == stem[0];
    assert pattern[..|head|] == head;
    forall k | 0 <= k < |value| - 1 && value[k] == '/' ensures value[k + 1] != '/' {
      assert pattern[k] == '/';
    }
    forall d | d in value ensures d !in "%\\?#" {
      assert d == c || d in pattern;
    }
  }

  lemma FinalSegmentSegments(stem: string, c: char)
    requires CharacterOk(c) && c != '/' && c != '.' && c != '*'
    requires SegmentsOk(Split(stem + "/" + "*"), true)
    ensures SegmentsOk(Split(stem + "/" + [c]), false)
  {
    SplitAtSlash(stem, "*");
    SplitAtSlash(stem, [c]);
    SplitPlain("*");
    SplitPlain([c]);
    var was, now := Split(stem + "/" + "*"), Split(stem + "/" + [c]);
    forall k | 0 <= k < |now| ensures SegmentOk(now[k], k, |now|, false) {
      assert SegmentOk(was[k], k, |was|, true);
      assert now[k] == if k < |now| - 1 then was[k] else [c];
    }
  }

  lemma FinalSegmentValid(pattern: string, i: nat)
    requires NfcLaws()
    requires ValidPattern(pattern) && HasSuffix(pattern, "/*") && i < FINAL_CHARACTERS
    ensures Allows(pattern, TrimStar(pattern) + [FinalCharacter(i)])
  {
    WildcardShape(pattern);
    assert pattern == Stem(pattern) + "/" + "*";
    FinalSegmentText(Stem(pattern), FinalCharacter(i));
    FinalSegmentSegments(Stem(pattern), FinalCharacter(i));
  }

  /** Fewer than 66 entries cannot each be one of 66 different texts. */
  lemma {:induction false} MissedCharacter(entries: seq<string>, head: string, choices: seq<nat>) returns (i: nat)
    requires |entries| < |choices| && NoDuplicates(choices)
    requires forall k | 0 <= k < |choices| :: choices[k] < FINAL_CHARACTERS
    ensures i in choices && i < FINAL_CHARACTERS && head + [FinalCharacter(i)] !in entries
  {
    if entries == [] {
      i := choices[0];
    } else if k :| 0 <= k < |choices| && head + [FinalCharacter(choices[k])] == entries[0] {
      var fewer := choices[..k] + choices[k + 1..];
      i := MissedCharacter(entries[1..], head, fewer);
      assert i != choices[k];
      if i < choices[k] { FinalCharactersDiffer(i, choices[k]); } else { FinalCharactersDiffer(choices[k], i); }
      assert (head + [FinalCharacter(i)])[|head|] != (head + [FinalCharacter(choices[k])])[|head|];
    } else {
      var fewer := choices[..|choices| - 1];
      i := MissedCharacter(entries[1..], head, fewer);
      assert exists k :: 0 <= k < |choices| && choices[k] == i;
    }
  }

  /** A wildcard entry that allows a one-segment extension of a wildcard pattern covers the pattern. */
  lemma WildcardCoversSibling(ancestor: string, pattern: string, i: nat)
    requires ValidPattern(pattern) && HasSuffix(pattern, "/*") && i < FINAL_CHARACTERS
    requires Allows(ancestor, TrimStar(pattern) + [FinalCharacter(i)])
    requires ancestor != TrimStar(pattern) + [FinalCharacter(i)]
    ensures Covers(ancestor, pattern)
  {
    var a, head := TrimStar(ancestor), TrimStar(pattern);
    var value := head + [FinalCharacter(i)];
    assert a <= value && |value| > |a|;
    assert a <= head;
    assert a <= pattern;
  }

  lemma CoverFromInclusion(child: string, parent: seq<string>)
    requires NfcLaws()
    requires ValidPattern(child) && |parent| < FINAL_CHARACTERS
    requires Included([child], parent)
    ensures CoveredBySome(parent, child)
  {
    WildcardShape(child);
    if HasSuffix(child, "/*") {
      var head := TrimStar(child);
      var choices := seq(FINAL_CHARACTERS, (i: nat) => i);
      var i := MissedCharacter(parent, head, choices);
      FinalSegmentValid(child, i);
      var value := head + [FinalCharacter(i)];
      assert Allows(child, value) && child in [child];
      assert AnyAllows([child], value);
      var ancestor :| ancestor in parent && Allows(ancestor, value);
      WildcardCoversSibling(ancestor, child, i);
    } else {
      ExactPatternIsValue(child);
      assert child in [child];
      assert AnyAllows([child], child);
      var ancestor :| ancestor in parent && Allows(ancestor, child);
      assert Covers(ancestor, child);
    }
  }

  lemma ExactPatternIsValue(pattern: string)
    requires ValidPattern(pattern) && !HasSuffix(pattern, "/*")
    ensures ValidValue(pattern) && Allows(pattern, pattern)
  {
    WildcardShape(pattern);
    var segments := Split(pattern);
    forall k | 0 <= k < |segments| ensures SegmentOk(segments[k], k, |segments|, false) {
      assert SegmentOk(segments[k], k, |segments|, true);
    }
  }

  /** Every valid pattern allows some value. */
  lemma PatternNotEmpty(pattern: string) returns (value: string)
    requires NfcLaws() && ValidPattern(pattern)
    ensures Allows(pattern, value)
  {
    if HasSuffix(pattern, "/*") {
      FinalSegmentValid(pattern, 0);
      value := TrimStar(pattern) + [FinalCharacter(0)];
    } else {
      ExactPatternIsValue(pattern);
      value := pattern;
    }
  }

  /** Subset is exactly inclusion of what the two lists allow. */
  lemma SubsetIsInclusion(candidate: seq<string>, parent: seq<string>)
    requires NfcLaws()
    requires forall c | c in candidate :: ValidPattern(c)
    requires |parent| < FINAL_CHARACTERS
    ensures SubsetOf(candidate, parent) <==> Included(candidate, parent)
  {
    if SubsetOf(candidate, parent) {
      SubsetSound(candidate, parent);
    }
    if Included(candidate, parent) {
      forall child | child in candidate ensures CoveredBySome(parent, child) {
        assert Included([child], parent) by {
          forall value | AnyAllows([child], value) ensures AnyAllows(parent, value) {
            assert AnyAllows(candidate, value);
          }
        }
        CoverFromInclusion(child, parent);
      }
    }
  }

  // ---- The bound of 66 is the exact one, at the 256-byte cap ----

  /** Every one-segment extension of a stem, as exact patterns. */
  function OneCharacterChildren(stem: string): seq<string> {
    seq(FINAL_CHARACTERS, (i: nat) requires i < FINAL_CHARACTERS => stem + "/" + [FinalCharacter(i)])
  }

  lemma {:induction false} ByteLenConcat(a: string, b: string)
    ensures ByteLen(a + b) == ByteLen(a) + ByteLen(b)
    ensures ByteLen(b) >= |b|
  {
    if b == "" {
      assert a + b == a;
    } else {
      ByteLenConcat(a, b[..|b| - 1]);
      assert a + b == (a + b[..|b| - 1]) + [b[|b| - 1]];
      ByteLenAppend(a + b[..|b| - 1], b[|b| - 1]);
    }
  }

  lemma CharacterListed(c: char) returns (i: nat)
    requires CharacterOk(c) && c < '\U{80}' && c != '.' && c != '*' && c != '/'
    ensures i < FINAL_CHARACTERS && FinalCharacter(i) == c
  {
    i := if 'a' <= c <= 'z' then c as int - 'a' as int
         else if 'A' <= c <= 'Z' then c as int - 'A' as int + 26
         else if '0' <= c <= ':' then c as int - '0' as int + 52
         else if c == '-' then 63 else if c == '@' then 64 else 65;
  }

  lemma LastCharacterOk(stem: string, c: char)
    requires ValidValue(stem + "/" + [c])
    ensures CharacterOk(c) && c != '.' && c != '*' && c != '/'
  {
    var value := stem + "/" + [c];
    assert c != '/' by { assert value[|value| - 1] == c; }
    SplitAtSlash(stem, [c]);
    SplitPlain([c]);
    var segments := Split(value);
    assert segments[|segments| - 1] == [c];
    assert SegmentOk(segments[|segments| - 1], |segments| - 1, |segments|, false);
    assert c in [c];
  }

  lemma OneByteText(s: string)
    requires s != "" && ByteLen(s) <= 1
    ensures |s| == 1 && s[0] < '\U{80}'
  {
    ByteLenConcat("", s);
    assert s[..0] == "";
  }

  lemma CappedValueIsOneCharacter(stem: string, value: string) returns (c: char)
    requires ByteLen(stem + "/*") == MAX_BYTES
    requires stem + "/" <= value && |value| > |stem| + 1 && ByteLen(value) <= MAX_BYTES
    ensures value == stem + "/" + [c] && c < '\U{80}'
  {
    var head := stem + "/";
    var rest := value[|head|..];
    assert value == head + rest && stem + "/*" == head + ['*'];
    ByteLenConcat(head, rest);
    ByteLenAppend(head, '*');
    OneByteText(rest);
    c := rest[0];
  }

  /** With 66 parents Subset can refuse an inclusion: the 64-entry limit is what makes it exact. */
  lemma SubsetIncompleteAtSixtySix(stem: string)
    requires NfcLaws()
    requires ValidPattern(stem + "/*") && ByteLen(stem + "/*") == MAX_BYTES
    ensures |OneCharacterChildren(stem)| == FINAL_CHARACTERS
    ensures Included([stem + "/*"], OneCharacterChildren(stem))
    ensures !SubsetOf([stem + "/*"], OneCharacterChildren(stem))
  {
    var pattern, children := stem + "/*", OneCharacterChildren(stem);
    assert TrimStar(pattern) == stem + "/";
    forall value | AnyAllows([pattern], value) ensures AnyAllows(children, value) {
      var c := CappedValueIsOneCharacter(stem, value);
      LastCharacterOk(stem, c);
      var i := CharacterListed(c);
      assert children[i] == value;
      ValidValueIsPattern(value);
    }
    assert pattern in [pattern];
  }

  lemma {:induction false} AsciiNfc(s: string)
    requires NfcLaws() && Nfc("") && (forall c | c in s :: c < '\U{80}')
    ensures Nfc(s)
  {
    if s != "" {
      var front := s[..|s| - 1];
      assert s == front + [s[|s| - 1]];
      assert s[|s| - 1] in s && forall c | c in front :: c in s;
      AsciiNfc(front);
    }
  }

  /** Such a stem exists: 254 letters. */
  lemma LongStem() returns (stem: string)
    requires NfcLaws() && Nfc("")
    ensures ValidPattern(stem + "/*") && ByteLen(stem + "/*") == MAX_BYTES
  {
    stem := seq(254, i => 'a');
    var pattern := stem + "/*";
    AsciiByteLen(pattern);
    AsciiNfc(pattern);
    StemText(stem);
    assert pattern == stem + ['/'] + "*";
    SplitAtSlash(stem, "*");
    SplitPlain(stem);
    SplitPlain("*");
    StemSegments(stem);
  }

  lemma StemText(stem: string)
    requires |stem| > 2 && forall c | c in stem :: c == 'a'
    ensures var pattern := stem + "/*";
            && Trimmed(pattern) && !(exists c :: c in pattern && c in "%\\?#") && pattern[0] != '/' && pattern[|pattern| - 1] != '/'
            && !DoubleSlash(pattern)
  {
    assert stem[0] in stem;
    forall i | 0 <= i < |stem| ensures stem[i] == 'a' {
      assert stem[i] in stem;
    }
  }

  lemma StemSegments(stem: string)
    requires |stem| > 2 && forall c | c in stem :: c == 'a'
    ensures SegmentsOk([stem, "*"], true)
  {
  }

  lemma ValidValueIsPattern(value: string)
    requires ValidValue(value)
    ensures ValidPattern(value) && Allows(value, value)
  {
    var segments := Split(value);
    forall k | 0 <= k < |segments| ensures SegmentOk(segments[k], k, |segments|, true) {
      assert SegmentOk(segments[k], k, |segments|, false);
    }
  }

  /** Between single patterns, coverage is inclusion. */
  lemma CoversIsInclusion(parent: string, child: string)
    requires NfcLaws()
    requires ValidPattern(parent) && ValidPattern(child)
    ensures Covers(parent, child) <==> forall value: string :: Allows(child, value) ==> Allows(parent, value)
  {
    SubsetIsInclusion([child], [parent]);
    assert SubsetOf([child], [parent]) <==> Covers(parent, child) by {
      assert child in [child];
      if SubsetOf([child], [parent]) { assert CoveredBySome([parent], child); }
      if Covers(parent, child) { assert parent in [parent]; }
    }
    if forall value: string :: Allows(child, value) ==> Allows(parent, value) {
      forall value | AnyAllows([child], value) ensures AnyAllows([parent], value) {
        assert Allows(child, value);
        assert parent in [parent];
      }
    }
    if Included([child], [parent]) {
      forall value | Allows(child, value) ensures Allows(parent, value) {
        assert child in [child];
        assert AnyAllows([child], value);
      }
    }
  }

  /** Coverage is a partial order on valid patterns. */
  lemma CoversIsPartialOrder(a: string, b: string, c: string)
    ensures ValidPattern(a) ==> Covers(a, a)
    ensures Covers(a, b) && Covers(b, a) ==> a == b
    ensures Covers(a, b) && Covers(b, c) ==> Covers(a, c)
  {
    if Covers(a, b) && Covers(b, c) && a != b && b != c {
      assert TrimStar(a) <= TrimStar(b);
    }
  }
}
