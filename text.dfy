/** The few operations of Go's `strings` package that the library uses, on
    strings modelled as sequences of Unicode scalar values. A Go string is the
    UTF-8 encoding of such a sequence; `ByteLen` gives its length in bytes. */
module Text {

  /** Go's `unicode.IsSpace`: the Unicode White_Space property. */
  predicate IsSpace(c: char) {
    || '\t' <= c <= '\r'               // tab, line feed, vertical tab, form feed, carriage return
    || c == ' ' || c == '\U{85}' || c == '\U{A0}'
    || c == '\U{1680}'
    || ('\U{2000}' <= c <= '\U{200A}')
    || c == '\U{2028}' || c == '\U{2029}' || c == '\U{202F}' || c == '\U{205F}'
    || c == '\U{3000}'
  }

  predicate AllSpace(s: string) {
    forall i | 0 <= i < |s| :: IsSpace(s[i])
  }

  /** `s` without its leading white space. */
  function TrimLeftSpace(s: string): (r: string)
    ensures |r| <= |s|
    ensures r == [] || !IsSpace(r[0])
  {
    if |s| > 0 && IsSpace(s[0]) then TrimLeftSpace(s[1..]) else s
  }

  /** `s` without its trailing white space. */
  function TrimRightSpace(s: string): (r: string)
    ensures |r| <= |s|
    ensures r == [] || !IsSpace(r[|r| - 1])
  {
    if |s| > 0 && IsSpace(s[|s| - 1]) then TrimRightSpace(s[..|s| - 1]) else s
  }

  /** What `TrimLeftSpace` removes is a run of white space at the front. */
  lemma {:induction false} TrimLeftSpaceCuts(s: string)
    ensures var r := TrimLeftSpace(s);
      r == s[|s| - |r|..] && AllSpace(s[..|s| - |r|])
  {
    if |s| > 0 && IsSpace(s[0]) {
      TrimLeftSpaceCuts(s[1..]);
      var r := TrimLeftSpace(s[1..]);
      assert s[1..][..|s| - 1 - |r|] == s[1..|s| - |r|];
    }
  }

  /** What `TrimRightSpace` removes is a run of white space at the end. */
  lemma {:induction false} TrimRightSpaceCuts(s: string)
    ensures var r := TrimRightSpace(s);
      r == s[..|r|] && AllSpace(s[|r|..])
  {
    if |s| > 0 && IsSpace(s[|s| - 1]) {
      TrimRightSpaceCuts(s[..|s| - 1]);
      var r := TrimRightSpace(s[..|s| - 1]);
      assert s[..|s| - 1][|r|..] + [s[|s| - 1]] == s[|r|..];
    }
  }

  /** Go's `strings.TrimSpace`: `s` with its leading and trailing white space
      removed. The result neither starts nor ends with white space. */
  function TrimSpace(s: string): (r: string)
    ensures |r| <= |s|
    ensures r == [] || (!IsSpace(r[0]) && !IsSpace(r[|r| - 1]))
  {
    var l := TrimLeftSpace(s);
    TrimRightSpaceCuts(l);
    TrimRightSpace(l)
  }

  /** `TrimSpace` keeps a contiguous piece of `s` and cuts only white space
      around it. */
  lemma TrimSpaceCuts(s: string)
    ensures var r := TrimSpace(s);
      exists k | 0 <= k <= |s| - |r| :: r == s[k..k + |r|] && AllSpace(s[..k]) && AllSpace(s[k + |r|..])
  {
    var l := TrimLeftSpace(s);
    TrimLeftSpaceCuts(s);
    TrimRightSpaceCuts(l);
    var r := TrimSpace(s);
    var k := |s| - |l|;
    assert r == s[k..k + |r|];
    assert s[k + |r|..] == l[|r|..];
  }

  /** A string is blank (trims to "") exactly when all of it is white space. */
  lemma BlankIffAllSpace(s: string)
    ensures TrimSpace(s) == "" <==> AllSpace(s)
  {
    var l := TrimLeftSpace(s);
    TrimLeftSpaceCuts(s);
    TrimRightSpaceCuts(l);
    if TrimSpace(s) == "" {
      assert s == s[..|s| - |l|] + l;
    }
  }

  /** Trimming twice trims nothing more. */
  lemma {:induction false} TrimSpaceIdempotent(s: string)
    ensures TrimSpace(TrimSpace(s)) == TrimSpace(s)
  {
    var r := TrimSpace(s);
    if r != [] {
      assert TrimLeftSpace(r) == r;
      assert TrimRightSpace(r) == r;
    }
  }

  /** Text without white space at either end is left as it is. */
  lemma TrimSpaceUntouched(s: string)
    requires s == [] || (!IsSpace(s[0]) && !IsSpace(s[|s| - 1]))
    ensures TrimSpace(s) == s
  {
  }

  /** Number of bytes in the UTF-8 encoding of one scalar value. */
  function Utf8Width(c: char): nat {
    if c as int < 0x80 then 1
    else if c as int < 0x800 then 2
    else if c as int < 0x1_0000 then 3
    else 4
  }

  predicate IsAscii(c: char) {
    c as int < 0x80
  }

  /** Go's `len` on a string: its length in UTF-8 bytes. */
  function ByteLen(s: string): (n: nat)
    ensures |s| <= n <= 4 * |s|
  {
    if |s| == 0 then 0 else ByteLen(s[..|s| - 1]) + Utf8Width(s[|s| - 1])
  }

  /** For ASCII text the byte length is the character count. */
  lemma {:induction false} ByteLenAscii(s: string)
    requires forall i | 0 <= i < |s| :: IsAscii(s[i])
    ensures ByteLen(s) == |s|
  {
    if |s| > 0 {
      ByteLenAscii(s[..|s| - 1]);
    }
  }

  predicate HasPrefix(s: string, prefix: string) {
    |prefix| <= |s| && s[..|prefix|] == prefix
  }

  predicate HasSuffix(s: string, suffix: string) {
    |suffix| <= |s| && s[|s| - |suffix|..] == suffix
  }

  /** Go's `strings.Contains`: `sub` occurs somewhere in `s`. */
  predicate Contains(s: string, sub: string)
    ensures Contains(s, sub) ==> |sub| <= |s|
    decreases |s|
  {
    HasPrefix(s, sub) || (|s| > 0 && Contains(s[1..], sub))
  }

  lemma HasPrefixChar(s: string, c: char)
    ensures HasPrefix(s, [c]) <==> |s| > 0 && s[0] == c
  {
  }

  lemma HasSuffixChar(s: string, c: char)
    ensures HasSuffix(s, [c]) <==> |s| > 0 && s[|s| - 1] == c
  {
    if |s| > 0 && s[|s| - 1] == c {
      assert s[|s| - 1..] == [c];
    }
  }

  /** No two consecutive occurrences of `c`. */
  predicate NoDouble(s: string, c: char) {
    forall p | 0 <= p < |s| - 1 :: !(s[p] == c && s[p + 1] == c)
  }

  /** `Contains(s, [c, c])` is the absence of `NoDouble`. */
  lemma {:induction false} ContainsDouble(s: string, c: char)
    ensures Contains(s, [c, c]) <==> !NoDouble(s, c)
    decreases |s|
  {
    if |s| > 0 {
      ContainsDouble(s[1..], c);
      if HasPrefix(s, [c, c]) {
        assert s[0] == c && s[1] == c;
      }
      if !NoDouble(s, c) {
        var p :| 0 <= p < |s| - 1 && s[p] == c && s[p + 1] == c;
        if p > 0 {
          assert s[1..][p - 1] == c && s[1..][p] == c;
        } else {
          assert s[..2] == [c, c];
        }
      }
      if !NoDouble(s[1..], c) {
        var p :| 0 <= p < |s| - 2 && s[1..][p] == c && s[1..][p + 1] == c;
        assert s[p + 1] == c && s[p + 2] == c;
      }
    }
  }

  /** Index of the first occurrence of `c` in `s`. */
  function IndexOf(s: string, c: char): (i: nat)
    requires c in s
    ensures i < |s| && s[i] == c && c !in s[..i]
  {
    if s[0] == c then 0
    else
      var j := IndexOf(s[1..], c);
      assert s[..j + 1] == [s[0]] + s[1..][..j];
      j + 1
  }

  /** Go's `strings.Split` with a one-character separator: the pieces of `s`
      between occurrences of `c`, always at least one. */
  function Split(s: string, c: char): (pieces: seq<string>)
    ensures |pieces| >= 1
    decreases |s|
  {
    if c in s then
      var i := IndexOf(s, c);
      [s[..i]] + Split(s[i + 1..], c)
    else [s]
  }

  function Last<T>(xs: seq<T>): T
    requires |xs| > 0
  {
    xs[|xs| - 1]
  }

  /** A string with exactly one separator, at `i`, splits there into two. */
  lemma SplitAtOnly(s: string, c: char, i: nat)
    requires i < |s| && s[i] == c
    requires c !in s[..i] && c !in s[i + 1..]
    ensures Split(s, c) == [s[..i], s[i + 1..]]
  {

  }

  /** No piece contains the separator, and every character of a piece is
      one of `s`. */
  lemma {:induction false} SplitPieces(s: string, c: char, ok: char -> bool)
    requires forall p | 0 <= p < |s| :: s[p] == c || ok(s[p])
    ensures forall j, q | 0 <= j < |Split(s, c)| && 0 <= q < |Split(s, c)[j]| ::
      Split(s, c)[j][q] != c && ok(Split(s, c)[j][q])
    decreases |s|
  {
    if c in s {
      var i := IndexOf(s, c);
      var rest := s[i + 1..];
      assert forall p | 0 <= p < |rest| :: rest[p] == s[i + 1 + p];
      SplitPieces(rest, c, ok);
      var pieces := Split(s, c);
      assert pieces == [s[..i]] + Split(rest, c);
      forall j, q | 0 <= j < |pieces| && 0 <= q < |pieces[j]|
        ensures pieces[j][q] != c && ok(pieces[j][q])
      {
        if j == 0 {
          assert pieces[0][q] == s[..i][q] == s[q];
        } else {
          assert pieces[j] == Split(rest, c)[j - 1];
        }
      }
    }
  }

  /** The converse: if every piece is made of `ok` characters and `c` itself
      is `ok`, then so is all of `s`. */
  lemma {:induction false} SplitJoinChars(s: string, c: char, ok: char -> bool)
    requires ok(c)
    requires forall j, q | 0 <= j < |Split(s, c)| && 0 <= q < |Split(s, c)[j]| ::
      ok(Split(s, c)[j][q])
    ensures forall p | 0 <= p < |s| :: ok(s[p])
    decreases |s|
  {
    if c in s {
      var i := IndexOf(s, c);
      var rest := s[i + 1..];
      var pieces := Split(s, c);
      assert pieces == [s[..i]] + Split(rest, c);
      forall j, q | 0 <= j < |Split(rest, c)| && 0 <= q < |Split(rest, c)[j]|
        ensures ok(Split(rest, c)[j][q])
      {
        assert Split(rest, c)[j] == pieces[j + 1];
      }
      SplitJoinChars(rest, c, ok);
      forall p | 0 <= p < |s| ensures ok(s[p]) {
        if p < i {
          assert s[p] == pieces[0][p];
        } else if p > i {
          assert s[p] == rest[p - i - 1];
        }
      }
    } else {
      assert Split(s, c)[0] == s;
    }
  }

  /** The first piece is a prefix of `s`. */
  lemma SplitFirst(s: string, c: char)
    ensures HasPrefix(s, Split(s, c)[0])
  {
  }

  /** The last piece is a suffix of `s`. */
  lemma {:induction false} SplitLastSuffix(s: string, c: char)
    ensures HasSuffix(s, Last(Split(s, c)))
    decreases |s|
  {
    if c in s {
      var i := IndexOf(s, c);
      var rest := s[i + 1..];
      SplitLastSuffix(rest, c);
      var l := Last(Split(rest, c));
      assert Last(Split(s, c)) == l;
      assert rest[|rest| - |l|..] == s[|s| - |l|..];
    }
  }

  /** When there are several pieces, the last one follows a separator. */
  lemma {:induction false} SplitLastSeparator(s: string, c: char)
    requires |Split(s, c)| >= 2
    ensures |Last(Split(s, c))| < |s| && s[|s| - |Last(Split(s, c))| - 1] == c
    decreases |s|
  {
    var i := IndexOf(s, c);
    var rest := s[i + 1..];
    var l := Last(Split(rest, c));
    assert Last(Split(s, c)) == l;
    SplitLastSuffix(rest, c);
    if |Split(rest, c)| == 1 {
      assert l == rest;
    } else {
      SplitLastSeparator(rest, c);
      assert s[|s| - |l| - 1] == rest[|rest| - |l| - 1];
    }
  }

  /** The piece after the last separator is the last piece. */
  lemma {:induction false} SplitLastAfter(s: string, c: char, k: nat)
    requires k < |s| && s[k] == c && c !in s[k + 1..]
    ensures |Split(s, c)| >= 2 && Last(Split(s, c)) == s[k + 1..]
    decreases |s|
  {
    var i := IndexOf(s, c);
    var rest := s[i + 1..];
    if i == k {
      assert Split(rest, c) == [rest];
    } else {
      assert rest[k - i - 1] == c;
      assert rest[k - i..] == s[k + 1..];
      SplitLastAfter(rest, c, k - i - 1);
    }
  }

  /** When no piece is empty, the separator never occurs twice in a row. */
  lemma {:induction false} SplitNoEmptyPiece(s: string, c: char)
    requires forall j | 0 <= j < |Split(s, c)| :: |Split(s, c)[j]| > 0
    ensures NoDouble(s, c)
    decreases |s|
  {
    if c in s {
      var i := IndexOf(s, c);
      var rest := s[i + 1..];
      var pieces := Split(s, c);
      assert pieces == [s[..i]] + Split(rest, c);
      forall j | 0 <= j < |Split(rest, c)| ensures |Split(rest, c)[j]| > 0 {
        assert Split(rest, c)[j] == pieces[j + 1];
      }
      SplitNoEmptyPiece(rest, c);
      SplitFirst(rest, c);
      forall p | 0 <= p < |s| - 1 ensures !(s[p] == c && s[p + 1] == c) {
        if p < i {
          assert s[..i][p] == s[p];
        } else if p == i {
          assert |Split(rest, c)[0]| > 0;
          assert rest[0] == Split(rest, c)[0][0];
          assert rest[0] != c by {
            SplitPieces(rest, c, _ => true);
          }
        } else {
          assert s[p] == rest[p - i - 1] && s[p + 1] == rest[p - i];
        }
      }
    }
  }

  /** Go's `strings.TrimRight(s, cutset)` for a one-character cutset. */
  function TrimRightChar(s: string, c: char): (r: string)
    ensures |r| <= |s| && r == s[..|r|]
    ensures forall i | |r| <= i < |s| :: s[i] == c
    ensures r == [] || r[|r| - 1] != c
  {
    if |s| > 0 && s[|s| - 1] == c then TrimRightChar(s[..|s| - 1], c) else s
  }

  function ToLowerAscii(c: char): char {
    if 'A' <= c <= 'Z' then (c as int + 32) as char else c
  }

  /** Equality of two strings up to ASCII letter case. */
  predicate EqualFoldAscii(a: string, b: string) {
    |a| == |b| && forall i | 0 <= i < |a| :: ToLowerAscii(a[i]) == ToLowerAscii(b[i])
  }
}
