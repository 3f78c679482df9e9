/** The JavaScript string operations the signup form relies on: String.prototype.trim,
    toLowerCase/toUpperCase (restricted to ASCII letters), split on one character,
    the filter that drops empty parts, and indexOf for one character. */
module Text {

  /** The code points ECMAScript counts as WhiteSpace or LineTerminator, which trim removes. */
  predicate IsWhitespace(c: char) {
    if c <= ' ' then c == ' ' || '\t' <= c <= '\r'
    else
      c == '\U{00A0}' || c == '\U{1680}' || '\U{2000}' <= c <= '\U{200A}'
      || c == '\U{2028}' || c == '\U{2029}' || c == '\U{202F}' || c == '\U{205F}'
      || c == '\U{3000}' || c == '\U{FEFF}'
  }

  predicate AllWhitespace(s: string) {
    forall k :: 0 <= k < |s| ==> IsWhitespace(s[k])
  }

  /** The length of the longest whitespace prefix of s. */
  function LeadingWhitespace(s: string): (n: nat)
    ensures n <= |s|
    ensures forall k :: 0 <= k < n ==> IsWhitespace(s[k])
    ensures n < |s| ==> !IsWhitespace(s[n])
  {
    if |s| > 0 && IsWhitespace(s[0]) then 1 + LeadingWhitespace(s[1..]) else 0
  }

  /** The length of the longest whitespace suffix of s. */
  function TrailingWhitespace(s: string): (n: nat)
    ensures n <= |s|
    ensures forall k :: |s| - n <= k < |s| ==> IsWhitespace(s[k])
    ensures n < |s| ==> !IsWhitespace(s[|s| - 1 - n])
  {
    if |s| > 0 && IsWhitespace(s[|s| - 1]) then 1 + TrailingWhitespace(s[..|s| - 1]) else 0
  }

  /** String.prototype.trim: s without its leading and its trailing whitespace. */
  function Trim(s: string): (r: string)
    ensures |r| <= |s|
    ensures r != [] ==> !IsWhitespace(r[0]) && !IsWhitespace(r[|r| - 1])
  {
    var t := s[LeadingWhitespace(s)..];
    t[..|t| - TrailingWhitespace(t)]
  }

  /** What trim keeps is one piece of s, and everything outside it is whitespace. */
  lemma TrimSpec(s: string)
    ensures LeadingWhitespace(s) + |Trim(s)| <= |s|
    ensures Trim(s) == s[LeadingWhitespace(s)..LeadingWhitespace(s) + |Trim(s)|]
    ensures forall k :: (0 <= k < |s| && !(LeadingWhitespace(s) <= k < LeadingWhitespace(s) + |Trim(s)|)
      ==> IsWhitespace(s[k]))
  {
    var i := LeadingWhitespace(s);
    var t := s[i..];
    var n := TrailingWhitespace(t);
    assert Trim(s) == t[..|t| - n];
    forall k | i + |t| - n <= k < |s|
      ensures IsWhitespace(s[k])
    {
      assert s[k] == t[k - i];
    }
  }

  /** Trim yields the empty string exactly when s is whitespace only. */
  lemma TrimEmptyIff(s: string)
    ensures Trim(s) == [] <==> AllWhitespace(s)
  {
    TrimSpec(s);
    var i := LeadingWhitespace(s);
    assert AllWhitespace(s) ==> i == |s|;
  }

  /** Trim removes whitespace only: every other character is kept. */
  lemma TrimKeeps(s: string, c: char)
    requires !IsWhitespace(c)
    ensures c in Trim(s) <==> c in s
  {
    TrimSpec(s);
    var r, i := Trim(s), LeadingWhitespace(s);
    if c in s {
      var k :| 0 <= k < |s| && s[k] == c;
      assert i <= k < i + |r|;
      assert r[k - i] == c;
    }
    if c in r {
      var k :| 0 <= k < |r| && r[k] == c;
      assert s[i + k] == c;
    }
  }

  /** A string without whitespace at either end is left as it is. */
  lemma TrimUnpadded(s: string)
    requires s != [] ==> !IsWhitespace(s[0]) && !IsWhitespace(s[|s| - 1])
    ensures Trim(s) == s
  {
    if s != [] {
      assert LeadingWhitespace(s) == 0;
      assert TrailingWhitespace(s) == 0;
    }
  }

  /** Trim removes exactly the whitespace around an unpadded string. */
  lemma TrimPadded(before: string, s: string, after: string)
    requires AllWhitespace(before) && AllWhitespace(after)
    requires s != [] && !IsWhitespace(s[0]) && !IsWhitespace(s[|s| - 1])
    ensures Trim(before + s + after) == s
  {
    var w := before + s + after;
    TrimSpec(w);
    var i, r := LeadingWhitespace(w), Trim(w);
    assert w[|before|] == s[0];
    assert w[|before| + |s| - 1] == s[|s| - 1];
    assert i == |before|;
    assert !IsWhitespace(w[i + |s| - 1]);
    assert forall k :: |before| + |s| <= k < |w| ==> w[k] == after[k - |before| - |s|];
    assert |r| == |s|;
    assert r == w[|before|..|before| + |s|];
  }

  lemma TrimIdempotent(s: string)
    ensures Trim(Trim(s)) == Trim(s)
  {
    TrimUnpadded(Trim(s));
  }

  predicate IsAsciiUpper(c: char) { 'A' <= c <= 'Z' }
  predicate IsAsciiLower(c: char) { 'a' <= c <= 'z' }

  function LowerChar(c: char): (d: char)
    ensures d != c <==> IsAsciiUpper(c)
    ensures IsAsciiUpper(c) ==> IsAsciiLower(d)
  {
    if IsAsciiUpper(c) then (c as int + 32) as char else c
  }

  function UpperChar(c: char): (d: char)
    ensures d != c <==> IsAsciiLower(c)
    ensures IsAsciiLower(c) ==> IsAsciiUpper(d)
  {
    if IsAsciiLower(c) then (c as int - 32) as char else c
  }

  /** toLowerCase on the ASCII letters: each character mapped on its own. */
  function ToLower(s: string): string {
    seq(|s|, k requires 0 <= k < |s| => LowerChar(s[k]))
  }

  /** toUpperCase on the ASCII letters: each character mapped on its own. */
  function ToUpper(s: string): string {
    seq(|s|, k requires 0 <= k < |s| => UpperChar(s[k]))
  }

  /** String.prototype.split with a one-character separator: the pieces between
      separators, including the empty ones before, between and after them. */
  function Split(s: string, sep: char): (parts: seq<string>)
    ensures |parts| >= 1
    ensures forall k :: 0 <= k < |parts| ==> sep !in parts[k]
    ensures parts[0] != [] <==> s != [] && s[0] != sep
  {
    if |s| == 0 then [""]
    else
      var rest := Split(s[1..], sep);
      if s[0] == sep then [""] + rest
      else [[s[0]] + rest[0]] + rest[1..]
  }

  /** Array.prototype.join, the inverse of Split. */
  function Join(parts: seq<string>, sep: char): string {
    if |parts| == 0 then ""
    else if |parts| == 1 then parts[0]
    else parts[0] + [sep] + Join(parts[1..], sep)
  }

  /** Joining the pieces of a split restores the string. */
  lemma {:induction false} SplitJoin(s: string, sep: char)
    ensures Join(Split(s, sep), sep) == s
  {
    if |s| > 0 {
      var rest := Split(s[1..], sep);
      SplitJoin(s[1..], sep);
      if s[0] == sep {
        assert ([""] + rest)[1..] == rest;
      } else if |rest| > 1 {
        var parts := [[s[0]] + rest[0]] + rest[1..];
        assert parts[1..] == rest[1..];
        assert s == [s[0]] + s[1..];
      }
    }
  }

  /** The filter `part !== ''` over the pieces of a split. */
  function NonEmptyParts(parts: seq<string>): (r: seq<string>)
    ensures |r| <= |parts|
    ensures forall p :: p in r <==> p in parts && p != ""
  {
    if |parts| == 0 then []
    else
      var rest := NonEmptyParts(parts[1..]);
      assert parts == [parts[0]] + parts[1..];
      if parts[0] == "" then rest else [parts[0]] + rest
  }

  /** The filter keeps the order of the pieces: filtering two lists one after the other
      is filtering their concatenation. */
  lemma {:induction false} NonEmptyPartsConcat(a: seq<string>, b: seq<string>)
    ensures NonEmptyParts(a + b) == NonEmptyParts(a) + NonEmptyParts(b)
  {
    if a == [] {
      assert a + b == b;
    } else {
      var ab := a + b;
      assert ab[0] == a[0] && ab[1..] == a[1..] + b;
      NonEmptyPartsConcat(a[1..], b);
      var rest := NonEmptyParts(a[1..]);
      if a[0] != "" {
        assert [a[0]] + rest + NonEmptyParts(b) == [a[0]] + (rest + NonEmptyParts(b));
      }
    }
  }

  /** The filter keeps every non-empty piece as many times as it occurs and drops every
      empty one. */
  lemma {:induction false} NonEmptyPartsCount(parts: seq<string>)
    ensures multiset(NonEmptyParts(parts)) == multiset(parts)["" := 0]
  {
    if parts != [] {
      NonEmptyPartsCount(parts[1..]);
      assert parts == [parts[0]] + parts[1..];
      assert multiset(parts) == multiset{parts[0]} + multiset(parts[1..]);
    }
  }

  /** The words of s: its non-empty pieces between single spaces. */
  function Words(s: string): seq<string> {
    NonEmptyParts(Split(s, ' '))
  }

  /** Some character other than a space. */
  predicate HasNonSpace(s: string) {
    exists k :: 0 <= k < |s| && s[k] != ' '
  }

  /** A space with a non-space character somewhere before it and another somewhere after it. */
  predicate HasInnerSpace(s: string) {
    exists i, j, k :: 0 <= i < j < k < |s| && s[i] != ' ' && s[j] == ' ' && s[k] != ' '
  }

  /** How the words of s relate to the words of s without its first character. */
  lemma WordsStep(s: string)
    requires s != []
    ensures s[0] == ' ' ==> Words(s) == Words(s[1..])
    ensures s[0] != ' ' ==>
      |Words(s)| == 1 + |Words(s[1..])| - (if |s| > 1 && s[1] != ' ' then 1 else 0)
  {
    var rest := Split(s[1..], ' ');
    assert rest == [rest[0]] + rest[1..];
    if s[0] == ' ' {
      assert Split(s, ' ') == [""] + rest;
      assert ([""] + rest)[1..] == rest;
    } else {
      var parts := [[s[0]] + rest[0]] + rest[1..];
      assert Split(s, ' ') == parts;
      assert parts[1..] == rest[1..];
      assert NonEmptyParts(parts) == [parts[0]] + NonEmptyParts(rest[1..]);
    }
  }

  /** s has a word exactly when it has a character other than a space. */
  lemma {:induction false} OneWordIff(s: string)
    ensures |Words(s)| >= 1 <==> HasNonSpace(s)
  {
    if s != [] {
      WordsStep(s);
      OneWordIff(s[1..]);
      var t := s[1..];
      if HasNonSpace(t) {
        var k :| 0 <= k < |t| && t[k] != ' ';
        assert s[k + 1] != ' ';
      }
      if HasNonSpace(s) && s[0] == ' ' {
        var k :| 0 <= k < |s| && s[k] != ' ';
        assert t[k - 1] != ' ';
      }
    } else {
      assert Split(s, ' ') == [""];
    }
  }

  /** s has at least two words exactly when a space separates two non-space characters. */
  lemma {:induction false} TwoWordsIff(s: string)
    ensures |Words(s)| >= 2 <==> HasInnerSpace(s)
  {
    if s == [] {
      assert Split(s, ' ') == [""];
    } else {
      var t := s[1..];
      WordsStep(s);
      TwoWordsIff(t);
      if HasInnerSpace(t) {
        var i, j, k :| 0 <= i < j < k < |t| && t[i] != ' ' && t[j] == ' ' && t[k] != ' ';
        assert s[i + 1] != ' ' && s[j + 1] == ' ' && s[k + 1] != ' ';
      }
      if s[0] == ' ' {
        if HasInnerSpace(s) {
          var i, j, k :| 0 <= i < j < k < |s| && s[i] != ' ' && s[j] == ' ' && s[k] != ' ';
          assert t[i - 1] != ' ' && t[j - 1] == ' ' && t[k - 1] != ' ';
        }
      } else if |s| == 1 {
        assert !HasInnerSpace(s);
      } else if s[1] == ' ' {
        OneWordIff(t);
        if HasNonSpace(t) {
          var k :| 0 <= k < |t| && t[k] != ' ';
          assert s[0] != ' ' && s[1] == ' ' && s[k + 1] != ' ';
        }
        if HasInnerSpace(s) {
          var i, j, k :| 0 <= i < j < k < |s| && s[i] != ' ' && s[j] == ' ' && s[k] != ' ';
          assert t[k - 1] != ' ';
        }
      } else {
        if HasInnerSpace(s) {
          var i, j, k :| 0 <= i < j < k < |s| && s[i] != ' ' && s[j] == ' ' && s[k] != ' ';
          if i == 0 {
            assert t[0] != ' ' && t[j - 1] == ' ' && t[k - 1] != ' ';
          } else {
            assert t[i - 1] != ' ' && t[j - 1] == ' ' && t[k - 1] != ' ';
          }
        }
      }
    }
  }

  /** Two words take at least three characters: a letter, a space and a letter. */
  lemma InnerSpaceLength(s: string)
    requires HasInnerSpace(s)
    ensures |s| >= 3
  {
    var i, j, k :| 0 <= i < j < k < |s| && s[i] != ' ' && s[j] == ' ' && s[k] != ' ';
  }

  /** String.prototype.indexOf for one character: the first index holding c, or -1. */
  function IndexOf(s: string, c: char): (r: int)
    ensures -1 <= r < |s|
    ensures r == -1 <==> c !in s
    ensures r >= 0 ==> s[r] == c && c !in s[..r]
  {
    if |s| == 0 then -1
    else if s[0] == c then 0
    else
      var k := IndexOf(s[1..], c);
      assert s == [s[0]] + s[1..];
      if k == -1 then -1
      else
        assert s[..k + 1] == [s[0]] + s[1..][..k];
        k + 1
  }
}
