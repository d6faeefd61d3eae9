/** Small failure-carrying datatypes shared by every module. */
module Wrappers {
  datatype Option<+T> = None | Some(value: T)
  datatype Result<+T, +E> = Ok(value: T) | Err(error: E)
}

/**
 Strings as sequences of Unicode scalar values. A Go string that is not valid UTF-8 has no
 counterpart here; the source refuses such a string before looking at anything else.
 */
module Text {

  /** Whether a string equals its NFC normal form: a Unicode table, left arbitrary. */
  const Nfc: string -> bool

  /** strings.ToUpper: a Unicode table, left arbitrary. */
  const UpperForm: string -> string

  /** The two facts about NFC the completeness proofs use (Unicode Annex 15, closure under substrings,
      and an ASCII character never composes with what precedes it). */
  ghost predicate NfcLaws() {
    && (forall s: string, n: nat | n <= |s| :: Nfc(s) ==> Nfc(s[..n]))
    && (forall s: string, c: char | c < '\U{80}' :: Nfc(s) ==> Nfc(s + [c]))
  }

  function Utf8Width(c: char): nat {
    if c < '\U{80}' then 1 else if c < '\U{800}' then 2 else if c < '\U{10000}' then 3 else 4
  }

  /** The length Go's len reports: bytes of the UTF-8 encoding. */
  function ByteLen(s: string): nat {
    if s == "" then 0 else ByteLen(s[..|s| - 1]) + Utf8Width(s[|s| - 1])
  }

  predicate IsControl(c: char) {
    c < ' ' || '\U{7F}' <= c <= '\U{9F}'
  }

  predicate IsSpace(c: char) {
    || '\U{09}' <= c <= '\U{0D}' || c == ' ' || c == '\U{85}' || c == '\U{A0}' || c == '\U{1680}'
    || '\U{2000}' <= c <= '\U{200A}' || c == '\U{2028}' || c == '\U{2029}' || c == '\U{202F}'
    || c == '\U{205F}' || c == '\U{3000}'
  }

  /** The immutable Unicode property Pattern_Syntax. */
  predicate IsPatternSyntax(c: char) {
    || '!' <= c <= '/' || ':' <= c <= '@' || '[' <= c <= '^' || c == '`' || '{' <= c <= '~'
    || '\U{A1}' <= c <= '\U{A7}' || c == '\U{A9}' || c == '\U{AB}' || c == '\U{AC}' || c == '\U{AE}'
    || c == '\U{B0}' || c == '\U{B1}' || c == '\U{B6}' || c == '\U{BB}' || c == '\U{BF}'
    || c == '\U{D7}' || c == '\U{F7}'
    || '\U{2010}' <= c <= '\U{2027}' || '\U{2030}' <= c <= '\U{203E}' || '\U{2041}' <= c <= '\U{2053}'
    || '\U{2055}' <= c <= '\U{205E}' || '\U{2190}' <= c <= '\U{245F}' || '\U{2500}' <= c <= '\U{2775}'
    || '\U{2794}' <= c <= '\U{2BFF}' || '\U{2E00}' <= c <= '\U{2E7F}' || '\U{3001}' <= c <= '\U{3003}'
    || '\U{3008}' <= c <= '\U{3020}' || c == '\U{3030}' || c == '\U{FD3E}' || c == '\U{FD3F}'
    || c == '\U{FE45}' || c == '\U{FE46}'
  }

  /** strings.TrimSpace(s) == s */
  predicate Trimmed(s: string) {
    s == "" || (!IsSpace(s[0]) && !IsSpace(s[|s| - 1]))
  }

  /** strings.TrimSpace(s) == "" */
  predicate AllSpace(s: string) {
    forall c | c in s :: IsSpace(c)
  }

  predicate HasSuffix(s: string, t: string) {
    |t| <= |s| && s[|s| - |t|..] == t
  }

  /** strings.Split(s, "/") */
  function Split(s: string): (segments: seq<string>)
    ensures |segments| >= 1
  {
    if s == "" then [""]
    else
      var rest := Split(s[1..]);
      if s[0] == '/' then [""] + rest else [[s[0]] + rest[0]] + rest[1..]
  }

  predicate NoDuplicates<T(==)>(xs: seq<T>) {
    forall i, j | 0 <= i < j < |xs| :: xs[i] != xs[j]
  }

  function Elements<T>(xs: seq<T>): set<T> {
    set x | x in xs
  }

  lemma ElementsOfPrefix<T>(xs: seq<T>, i: nat)
    requires i < |xs|
    ensures Elements(xs[..i + 1]) == Elements(xs[..i]) + {xs[i]}
  {
    assert xs[..i + 1] == xs[..i] + [xs[i]];
  }

  /** A list without repetitions has as many elements as entries. */
  lemma {:induction false} ElementCount<T>(xs: seq<T>)
    ensures |Elements(xs)| <= |xs|
    ensures NoDuplicates(xs) ==> |Elements(xs)| == |xs|
  {
    if xs != [] {
      var front, last := xs[..|xs| - 1], xs[|xs| - 1];
      assert xs == front + [last];
      assert Elements(xs) == Elements(front) + {last};
      ElementCount(front);
      if NoDuplicates(xs) {
        assert NoDuplicates(front);
        assert last !in front;
      }
    }
  }

  lemma SubsetSize<T>(a: set<T>, b: set<T>)
    requires a <= b
    ensures |a| <= |b|
  {
    assert b == a + (b - a);
  }

  lemma SplitCons(c: char, s: string)
    ensures Split([c] + s) == if c == '/' then [""] + Split(s) else [[c] + Split(s)[0]] + Split(s)[1..]
  {
    assert ([c] + s)[1..] == s;
  }

  /** Splitting at a slash splits the two sides. */
  lemma {:induction false} SplitAtSlash(a: string, b: string)
    ensures Split(a + ['/'] + b) == Split(a) + Split(b)
  {
    if a == "" {
      SplitCons('/', b);
      assert a + ['/'] + b == ['/'] + b;
    } else {
      var tail := a[1..] + ['/'] + b;
      assert a + ['/'] + b == [a[0]] + tail;
      assert a == [a[0]] + a[1..];
      SplitAtSlash(a[1..], b);
      SplitCons(a[0], tail);
      SplitCons(a[0], a[1..]);
      HeadOfConcat(a[0], Split(a[1..]), Split(b));
    }
  }

  lemma HeadOfConcat(c: char, x: seq<string>, y: seq<string>)
    requires |x| >= 1
    ensures [""] + (x + y) == ([""] + x) + y
    ensures [[c] + (x + y)[0]] + (x + y)[1..] == ([[c] + x[0]] + x[1..]) + y
  {
  }

  lemma SplitPlain(s: string)
    requires '/' !in s
    ensures Split(s) == [s]
  {
    if s != "" {
      SplitPlain(s[1..]);
      assert s == [s[0]] + s[1..];
    }
  }

  /** A string starts with `a/` exactly when its segments properly extend those of `a`. */
  lemma {:induction false} SlashPrefixMeansSegmentPrefix(a: string, s: string)
    ensures (a + "/") <= s <==> Split(a) < Split(s)
  {
    if a == "" {
      if s != "" && s[0] != '/' {
        assert Split(s)[0] != "";
      }
      if s != "" && s[0] == '/' {
        assert s == "/" + s[1..];
      }
    } else if s != "" {
      SlashPrefixMeansSegmentPrefix(a[1..], s[1..]);
      var ra, rs := Split(a[1..]), Split(s[1..]);
      assert (a + "/")[1..] == a[1..] + "/";
      assert (a + "/") <= s <==> a[0] == s[0] && (a[1..] + "/") <= s[1..] by {
        assert s == [s[0]] + s[1..] && a + "/" == [a[0]] + (a[1..] + "/");
      }
      if a[0] == s[0] {
        if a[0] == '/' {
          assert Split(a) < Split(s) <==> ra < rs by {
            assert Split(a)[1..] == ra && Split(s)[1..] == rs;
            assert Split(a) == [""] + ra && Split(s) == [""] + rs;
          }
        } else {
          HeadsExtended(a[0], ra, rs);
        }
      } else {
        assert a[0] != '/' ==> Split(a)[0][0] == a[0];
        assert s[0] != '/' ==> Split(s)[0][0] == s[0];
        assert Split(a)[0] != Split(s)[0];
      }
    }
  }

  lemma HeadsExtended(c: char, x: seq<string>, y: seq<string>)
    requires |x| >= 1 && |y| >= 1
    ensures [[c] + x[0]] + x[1..] < [[c] + y[0]] + y[1..] <==> x < y
  {
    var cx, cy := [[c] + x[0]] + x[1..], [[c] + y[0]] + y[1..];
    assert cx[0][1..] == x[0] && cy[0][1..] == y[0];
    if cx < cy {
      assert forall i | 0 <= i < |x| :: x[i] == y[i] by {
        forall i | 0 <= i < |x| ensures x[i] == y[i] {
          assert cx[i] == cy[i];
        }
      }
    }
    if x < y {
      assert forall i | 0 <= i < |x| :: cx[i] == cy[i];
    }
  }

  lemma ByteLenAppend(s: string, c: char)
    ensures ByteLen(s + [c]) == ByteLen(s) + Utf8Width(c)
  {
    assert (s + [c])[..|s + [c]| - 1] == s;
  }

  lemma {:induction false} AsciiByteLen(s: string)
    requires forall c | c in s :: c < '\U{80}'
    ensures ByteLen(s) == |s|
  {
    if s != "" {
      var front := s[..|s| - 1];
      assert s[|s| - 1] in s;
      forall c | c in front ensures c < '\U{80}' {
        assert c in s;
      }
      AsciiByteLen(front);
    }
  }

  lemma {:induction false} CharactersWithinBytes(s: string)
    ensures |s| <= ByteLen(s)
  {
    if s != "" {
      CharactersWithinBytes(s[..|s| - 1]);
    }
  }
}
