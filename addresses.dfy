/** The address validator of email.go (`isValidEmail`): a length bound, the
    regular expression `^[a-zA-Z0-9._%+-]+@[a-zA-Z0-9.-]+\.[a-zA-Z]{2,}$`, and
    extra checks on the local part and the domain labels. `ValidAddress` states
    the accepted language as a grammar; `IsValidEmail` is the check as the
    library performs it, proved to accept exactly that language. */
module Addresses {
  import opened Text
  import Decimal

  predicate Letter(c: char) {
    'a' <= c <= 'z' || 'A' <= c <= 'Z'
  }

  /** `[a-zA-Z0-9._%+-]` */
  predicate LocalChar(c: char) {
    Letter(c) || Decimal.IsDigit(c) || c == '.' || c == '_' || c == '%' || c == '+' || c == '-'
  }

  /** `[a-zA-Z0-9.-]` */
  predicate DomainChar(c: char) {
    Letter(c) || Decimal.IsDigit(c) || c == '.' || c == '-'
  }

  /** A domain character other than the dot. */
  predicate LabelChar(c: char) {
    Letter(c) || Decimal.IsDigit(c) || c == '-'
  }

  /** The regular expression: `t` is a non-empty run of local characters,
      `@`, a non-empty run of domain characters, `.`, and at least two
      letters, up to the end of the text. */
  predicate MatchesPattern(t: string) {
    exists i, k | 0 < i && i + 1 < k && k + 2 < |t| :: MatchesAt(t, i, k)
  }

  /** The pattern with its `@` at `i` and its last dot at `k`. */
  predicate MatchesAt(t: string, i: nat, k: nat)
    requires 0 < i && i + 1 < k && k + 2 < |t|
  {
    && t[i] == '@'
    && (forall p | 0 <= p < i :: LocalChar(t[p]))
    && (forall p | i < p < k :: DomainChar(t[p]))
    && t[k] == '.'
    && (forall p | k < p < |t| :: Letter(t[p]))
  }

  /** A local part: local characters, not starting or ending with a dot, no
      two dots in a row. */
  predicate LocalPartOk(l: string) {
    && |l| > 0
    && (forall p | 0 <= p < |l| :: LocalChar(l[p]))
    && l[0] != '.' && l[|l| - 1] != '.'
    && NoDouble(l, '.')
  }

  /** A domain label: letters, digits and hyphens, not starting or ending
      with a hyphen. */
  predicate LabelOk(l: string) {
    && |l| > 0
    && (forall p | 0 <= p < |l| :: LabelChar(l[p]))
    && l[0] != '-' && l[|l| - 1] != '-'
  }

  /** The last label: at least two letters. */
  predicate TopLabelOk(l: string) {
    |l| >= 2 && forall p | 0 <= p < |l| :: Letter(l[p])
  }

  /** `label(.label)+` ending in a label of letters. */
  predicate DomainOk(d: string) {
    var labels := Split(d, '.');
    && |labels| >= 2
    && (forall j | 0 <= j < |labels| :: LabelOk(labels[j]))
    && TopLabelOk(Last(labels))
  }

  /** `local@domain`. */
  predicate WellFormed(t: string) {
    exists i | 0 <= i < |t| :: t[i] == '@' && LocalPartOk(t[..i]) && DomainOk(t[i + 1..])
  }

  /** The addresses `isValidEmail` accepts: after trimming white space, at
      most 254 bytes of a well-formed address. */
  predicate ValidAddress(s: string) {
    var t := TrimSpace(s);
    ByteLen(t) <= 254 && WellFormed(t)
  }

  // ---- Proof of the equivalence between the library's check and the grammar

  lemma NoAtInLabels(d: string)
    requires forall j | 0 <= j < |Split(d, '.')| :: LabelOk(Split(d, '.')[j])
    ensures forall p | 0 <= p < |d| :: DomainChar(d[p])
    ensures '@' !in d
  {
    SplitJoinChars(d, '.', DomainChar);
  }

  /** An address with a good local part and domain around `@` at `i` has no
      other `@`. */
  lemma SplitOfWellFormed(t: string, i: nat)
    requires i < |t| && t[i] == '@' && LocalPartOk(t[..i]) && DomainOk(t[i + 1..])
    ensures Split(t, '@') == [t[..i], t[i + 1..]]
  {
    NoAtInLabels(t[i + 1..]);
    var l := t[..i];
    assert '@' !in l by {
      forall p | 0 <= p < |l| ensures l[p] != '@' {
        assert LocalChar(l[p]);
      }
    }
    SplitAtOnly(t, '@', i);
  }

  /** Two pieces means one separator, between them. */
  lemma TwoPieces(t: string, c: char)
    requires |Split(t, c)| == 2
    ensures var i := |Split(t, c)[0]|;
      i < |t| && t[i] == c && Split(t, c) == [t[..i], t[i + 1..]]
  {
    var i := IndexOf(t, c);
    var rest := Split(t[i + 1..], c);
    assert Split(t, c) == [t[..i]] + rest;
    assert c !in t[i + 1..];
  }

  /** A well-formed address is its single `@` with a good local part before
      it and a good domain after it, and conversely. */
  lemma WellFormedParts(t: string)
    ensures WellFormed(t) <==>
      var parts := Split(t, '@');
      |parts| == 2 && LocalPartOk(parts[0]) && DomainOk(parts[1])
  {
    var parts := Split(t, '@');
    if WellFormed(t) {
      var i :| 0 <= i < |t| && t[i] == '@' && LocalPartOk(t[..i]) && DomainOk(t[i + 1..]);
      SplitOfWellFormed(t, i);
    }
    if |parts| == 2 && LocalPartOk(parts[0]) && DomainOk(parts[1]) {
      TwoPieces(t, '@');
      var i := |parts[0]|;
      assert t[i] == '@' && LocalPartOk(t[..i]) && DomainOk(t[i + 1..]);
    }
  }

  /** The domain part the regular expression admits: domain characters, a
      dot at `kd`, and only letters (at least two) after it. */
  lemma PatternDomain(d: string, kd: nat)
    requires kd + 2 < |d| && d[kd] == '.'
    requires forall p | 0 <= p < |d| :: DomainChar(d[p])
    requires forall p | kd < p < |d| :: Letter(d[p])
    ensures var labels := Split(d, '.');
      && (forall j, q | 0 <= j < |labels| && 0 <= q < |labels[j]| :: LabelChar(labels[j][q]))
      && |labels| >= 2 && TopLabelOk(Last(labels))
  {
    var top := d[kd + 1..];
    assert forall p | 0 <= p < |top| :: top[p] == d[kd + 1 + p];
    assert '.' !in top;
    SplitLastAfter(d, '.', kd);
    SplitPieces(d, '.', LabelChar);
  }

  /** The positions of `@` and of the final dot that witness the pattern,
      restated on the two parts around the `@`. */
  lemma PatternWitness(t: string) returns (i: nat, kd: nat)
    requires MatchesPattern(t)
    ensures 0 < i < |t| && t[i] == '@'
    ensures '@' !in t[..i] && '@' !in t[i + 1..]
    ensures forall p | 0 <= p < |t[..i]| :: LocalChar(t[..i][p])
    ensures var d := t[i + 1..];
      && kd + 2 < |d| && d[kd] == '.'
      && (forall p | 0 <= p < |d| :: DomainChar(d[p]))
      && (forall p | kd < p < |d| :: Letter(d[p]))
  {
    var at, k :| 0 < at && at + 1 < k && k + 2 < |t| && MatchesAt(t, at, k);
    i, kd := at, k - at - 1;
    LocalOfMatch(t, at, k);
    DomainOfMatch(t, at, k);
  }

  /** The local part of a match, character by character. */
  lemma LocalOfMatch(t: string, i: nat, k: nat)
    requires 0 < i && i + 1 < k && k + 2 < |t| && MatchesAt(t, i, k)
    ensures '@' !in t[..i]
    ensures forall p | 0 <= p < |t[..i]| :: LocalChar(t[..i][p])
  {
    var l := t[..i];
    forall p | 0 <= p < |l| ensures LocalChar(l[p]) && l[p] != '@' {
      assert l[p] == t[p];
    }
  }

  /** The domain part of a match, character by character. */
  lemma DomainOfMatch(t: string, i: nat, k: nat)
    requires 0 < i && i + 1 < k && k + 2 < |t| && MatchesAt(t, i, k)
    ensures var d := t[i + 1..];
      && '@' !in d
      && k - i + 1 < |d| && d[k - i - 1] == '.'
      && (forall p | 0 <= p < |d| :: DomainChar(d[p]))
      && (forall p | k - i - 1 < p < |d| :: Letter(d[p]))
  {
    var d := t[i + 1..];
    var kd := k - i - 1;
    forall p | 0 <= p < |d| ensures DomainChar(d[p]) && d[p] != '@' && (kd < p ==> Letter(d[p])) {
      assert d[p] == t[i + 1 + p];
      if p < kd {
        assert DomainChar(t[i + 1 + p]);
      } else if p == kd {
        assert t[k] == '.';
      } else {
        assert Letter(t[i + 1 + p]);
      }
    }
  }

  /** What the regular expression says about the two parts around `@`. */
  lemma PatternParts(t: string)
    requires MatchesPattern(t)
    ensures var parts := Split(t, '@');
      && |parts| == 2 && |parts[0]| > 0
      && (forall p | 0 <= p < |parts[0]| :: LocalChar(parts[0][p]))
      && var labels := Split(parts[1], '.');
      && (forall j, q | 0 <= j < |labels| && 0 <= q < |labels[j]| :: LabelChar(labels[j][q]))
      && |labels| >= 2 && TopLabelOk(Last(labels))
  {
    var i, kd := PatternWitness(t);
    SplitAtOnly(t, '@', i);
    PatternDomain(t[i + 1..], kd);
  }

  /** A good domain has the shape the regular expression wants after the
      `@`: domain characters, and a dot at `kd > 0` followed by letters only. */
  lemma DomainPattern(d: string) returns (kd: nat)
    requires DomainOk(d)
    ensures 0 < kd && kd + 2 < |d| && d[kd] == '.'
    ensures forall p | 0 <= p < |d| :: DomainChar(d[p])
    ensures forall p | kd < p < |d| :: Letter(d[p])
  {
    var labels := Split(d, '.');
    NoAtInLabels(d);
    SplitFirst(d, '.');
    SplitLastSuffix(d, '.');
    SplitLastSeparator(d, '.');
    var top := Last(labels);
    kd := |d| - |top| - 1;
    assert d[0] == labels[0][0];
    forall p | kd < p < |d| ensures Letter(d[p]) {
      assert d[p] == top[p - kd - 1];
    }
  }

  /** The witnesses of the regular expression, given position by position. */
  lemma PatternAt(t: string, i: nat, k: nat)
    requires 0 < i && i + 1 < k && k + 2 < |t| && t[i] == '@' && t[k] == '.'
    requires forall p | 0 <= p < i :: LocalChar(t[p])
    requires forall p | i < p < k :: DomainChar(t[p])
    requires forall p | k < p < |t| :: Letter(t[p])
    ensures MatchesPattern(t)
  {
    assert MatchesAt(t, i, k);
  }

  /** Every well-formed address matches the regular expression. */
  lemma PatternOfWellFormed(t: string)
    requires WellFormed(t)
    ensures MatchesPattern(t)
  {
    var i :| 0 <= i < |t| && t[i] == '@' && LocalPartOk(t[..i]) && DomainOk(t[i + 1..]);
    PatternOfParts(t, i);
  }

  /** A good local part, `@` and a good domain match the regular expression. */
  lemma PatternOfParts(t: string, i: nat)
    requires i < |t| && t[i] == '@' && LocalPartOk(t[..i]) && DomainOk(t[i + 1..])
    ensures MatchesPattern(t)
  {
    var l := t[..i];
    var d := t[i + 1..];
    var kd := DomainPattern(d);
    var k := i + 1 + kd;
    forall p | 0 <= p < i ensures LocalChar(t[p]) {
      assert t[p] == l[p];
    }
    forall p | i < p < k ensures DomainChar(t[p]) {
      assert t[p] == d[p - i - 1];
    }
    forall p | k < p < |t| ensures Letter(t[p]) {
      assert t[p] == d[p - i - 1];
    }
    assert t[k] == d[kd];
    PatternAt(t, i, k);
  }

  /** The library's checks on the domain part hold of every good domain. */
  lemma DomainChecksPass(d: string)
    requires DomainOk(d)
    ensures !HasPrefix(d, "-") && !HasSuffix(d, "-")
    ensures !HasPrefix(d, ".") && !HasSuffix(d, ".")
    ensures !Contains(d, "..")
  {
    var labels := Split(d, '.');
    SplitFirst(d, '.');
    SplitLastSuffix(d, '.');
    SplitNoEmptyPiece(d, '.');
    ContainsDouble(d, '.');
    HasPrefixChar(d, '-');
    HasPrefixChar(d, '.');
    HasSuffixChar(d, '-');
    HasSuffixChar(d, '.');
    assert d[0] == labels[0][0];
    var top := Last(labels);
    assert d[|d| - 1] == top[|top| - 1];
  }

  /** The library's checks on the local part are the grammar's. */
  lemma LocalChecks(l: string)
    requires |l| > 0 && forall p | 0 <= p < |l| :: LocalChar(l[p])
    ensures LocalPartOk(l) <==>
      !(HasPrefix(l, ".") || HasSuffix(l, ".") || Contains(l, ".."))
  {
    HasPrefixChar(l, '.');
    HasSuffixChar(l, '.');
    ContainsDouble(l, '.');
  }

  /** The library's test on the local part. */
  predicate LocalChecksPass(l: string) {
    !(HasPrefix(l, ".") || HasSuffix(l, ".") || Contains(l, ".."))
  }

  /** The library's test on the whole domain part. */
  predicate DomainChecksPassed(d: string) {
    !(|| HasPrefix(d, "-") || HasSuffix(d, "-")
      || HasPrefix(d, ".") || HasSuffix(d, ".")
      || Contains(d, ".."))
  }

  /** The library's test on one domain label. */
  predicate LabelCheckPasses(l: string) {
    !(HasPrefix(l, "-") || HasSuffix(l, "-") || |l| == 0)
  }

  /** On labels made of label characters, the library's test is `LabelOk`. */
  lemma LabelChecks(labels: seq<string>)
    requires forall j, q | 0 <= j < |labels| && 0 <= q < |labels[j]| :: LabelChar(labels[j][q])
    ensures (forall j | 0 <= j < |labels| :: LabelCheckPasses(labels[j]))
        <==> (forall j | 0 <= j < |labels| :: LabelOk(labels[j]))
  {
    forall j | 0 <= j < |labels|
      ensures LabelCheckPasses(labels[j]) <==> LabelOk(labels[j])
    {
      HasPrefixChar(labels[j], '-');
      HasSuffixChar(labels[j], '-');
    }
  }

  /** Once the regular expression matched, the remaining checks of the
      library decide exactly the grammar. */
  lemma CheckedPattern(t: string)
    requires MatchesPattern(t)
    requires |Split(t, '@')| == 2
    ensures var parts := Split(t, '@');
      var labels := Split(parts[1], '.');
      WellFormed(t) <==>
        && LocalChecksPass(parts[0])
        && DomainChecksPassed(parts[1])
        && |labels| >= 2
        && (forall j | 0 <= j < |labels| :: LabelCheckPasses(labels[j]))
  {
    var parts := Split(t, '@');
    PatternParts(t);
    WellFormedParts(t);
    LocalChecks(parts[0]);
    LabelChecks(Split(parts[1], '.'));
    if DomainOk(parts[1]) {
      DomainChecksPass(parts[1]);
    }
  }

  // ---- Properties of the accepted language

  /** Blank input is rejected. */
  lemma BlankInvalid(s: string)
    requires AllSpace(s)
    ensures !ValidAddress(s)
  {
    BlankIffAllSpace(s);
  }

  /** Surrounding white space does not matter. */
  lemma TrimInsensitive(s: string)
    ensures ValidAddress(s) <==> ValidAddress(TrimSpace(s))
  {
    TrimSpaceIdempotent(s);
  }

  /** Text matching the regular expression is plain ASCII. */
  lemma PatternAscii(t: string)
    requires MatchesPattern(t)
    ensures forall p | 0 <= p < |t| :: IsAscii(t[p])
  {
    var i, kd := PatternWitness(t);
    var l, d := t[..i], t[i + 1..];
    forall p | 0 <= p < |t| ensures IsAscii(t[p]) {
      if p < i {
        assert t[p] == l[p] && LocalChar(l[p]);
      } else if p > i {
        assert t[p] == d[p - i - 1] && DomainChar(d[p - i - 1]);
      }
    }
  }

  /** An accepted address has exactly one `@`, matches the regular
      expression, is plain ASCII, and is at most 254 characters long. */
  lemma ValidShape(s: string)
    requires ValidAddress(s)
    ensures var t := TrimSpace(s);
      && |Split(t, '@')| == 2
      && MatchesPattern(t)
      && (forall p | 0 <= p < |t| :: IsAscii(t[p]))
      && |t| <= 254
  {
    var t := TrimSpace(s);
    WellFormedParts(t);
    PatternOfWellFormed(t);
    PatternAscii(t);
  }

  /** After the regular expression has matched, the test that the address
      splits into exactly two parts and the test for at least two labels
      never fail. */
  lemma DeadChecks(t: string)
    requires MatchesPattern(t)
    ensures |Split(t, '@')| == 2 && |Split(Split(t, '@')[1], '.')| >= 2
  {
    PatternParts(t);
  }

  /** Without white space at its ends, an address is accepted exactly when
      it is at most 254 bytes and well formed. */
  lemma Untrimmed(t: string)
    requires t == [] || (!IsSpace(t[0]) && !IsSpace(t[|t| - 1]))
    ensures ValidAddress(t) <==> ByteLen(t) <= 254 && WellFormed(t)
  {
    TrimSpaceUntouched(t);
  }

  /** `local@label.top` with a single `@` and a single dot is well formed
      when its three pieces are. */
  lemma OneDotDomain(t: string, i: nat, k: nat)
    requires i < k < |t| && t[i] == '@' && t[k] == '.'
    requires LocalPartOk(t[..i]) && LabelOk(t[i + 1..k]) && TopLabelOk(t[k + 1..])
    ensures WellFormed(t)
  {
    var d := t[i + 1..];
    var j := k - i - 1;
    assert d[..j] == t[i + 1..k];
    assert d[j + 1..] == t[k + 1..];
    TwoLabelDomain(d, j);
  }

  /** A label, one dot and a top label make a domain. */
  lemma TwoLabelDomain(d: string, j: nat)
    requires j < |d| && d[j] == '.'
    requires LabelOk(d[..j]) && TopLabelOk(d[j + 1..])
    ensures DomainOk(d)
  {
    var first, top := d[..j], d[j + 1..];
    assert '.' !in first by {
      forall p | 0 <= p < |first| ensures first[p] != '.' {
        assert LabelChar(first[p]);
      }
    }
    assert '.' !in top by {
      forall p | 0 <= p < |top| ensures top[p] != '.' {
        assert Letter(top[p]);
      }
    }
    SplitAtOnly(d, '.', j);
  }

  /** The same address, accepted when it is short enough and has no white
      space at its ends. */
  lemma OneDotValid(t: string, i: nat, k: nat)
    requires i < k < |t| && t[i] == '@' && t[k] == '.'
    requires LocalPartOk(t[..i]) && LabelOk(t[i + 1..k]) && TopLabelOk(t[k + 1..])
    requires !IsSpace(t[0]) && !IsSpace(t[|t| - 1]) && |t| <= 63
    ensures ValidAddress(t)
  {
    OneDotDomain(t, i, k);
    Untrimmed(t);
  }

  /** `local@label.top` assembled from its pieces. */
  lemma OneDotParts(l: string, a: string, b: string)
    requires LocalPartOk(l) && LabelOk(a) && TopLabelOk(b) && |l| + |a| + |b| <= 61
    ensures ValidAddress(l + "@" + a + "." + b)
  {
    var t := l + "@" + a + "." + b;
    var i, k := |l|, |l| + 1 + |a|;
    assert t[..i] == l && t[i + 1..k] == a && t[k + 1..] == b;
    assert t[0] == l[0] && LocalChar(l[0]);
    assert t[|t| - 1] == b[|b| - 1] && Letter(b[|b| - 1]);
    OneDotValid(t, i, k);
  }

  /** `test@example.com` is accepted. */
  lemma AcceptsPlain(t: string)
    requires t == "test@example.com"
    ensures ValidAddress(t)
  {
    var l, a, b := "test", "example", "com";
    assert NoDouble(l, '.');
    assert t == l + "@" + a + "." + b;
    OneDotParts(l, a, b);
  }

  /** `user.name@example.com` is accepted: a dot inside the local part. */
  lemma AcceptsDottedLocal(t: string)
    requires t == "user.name@example.com"
    ensures ValidAddress(t)
  {
    var l, a, b := "user.name", "example", "com";
    assert NoDouble(l, '.');
    assert t == l + "@" + a + "." + b;
    OneDotParts(l, a, b);
  }

  /** `user+tag@example.com` is accepted: a plus sign in the local part. */
  lemma AcceptsTag(t: string)
    requires t == "user+tag@example.com"
    ensures ValidAddress(t)
  {
    var l, a, b := "user+tag", "example", "com";
    assert NoDouble(l, '.');
    assert t == l + "@" + a + "." + b;
    OneDotParts(l, a, b);
  }

  /** `user123@example-domain.com` is accepted: a hyphen inside a label. */
  lemma AcceptsHyphenatedDomain(t: string)
    requires t == "user123@example-domain.com"
    ensures ValidAddress(t)
  {
    var l, a, b := "user123", "example-domain", "com";
    assert NoDouble(l, '.');
    HyphenatedLabel(a);
    assert t == l + "@" + a + "." + b;
    OneDotParts(l, a, b);
  }

  /** `example-domain` is a label: the hyphen is inside it. */
  lemma HyphenatedLabel(a: string)
    requires a == "example-domain"
    ensures LabelOk(a)
  {
    forall p | 0 <= p < |a| ensures LabelChar(a[p]) {
    }
  }

  /** Only one `@`: the parts of the address are the pieces around it. */
  lemma OneAt(t: string, i: nat)
    requires i < |t| && t[i] == '@' && '@' !in t[..i] && '@' !in t[i + 1..]
    ensures WellFormed(t) <==> LocalPartOk(t[..i]) && DomainOk(t[i + 1..])
  {
    SplitAtOnly(t, '@', i);
    WellFormedParts(t);
  }

  /** With a single `@` and no white space at its ends, an address whose
      local part or domain is bad is rejected. */
  lemma RejectedParts(l: string, d: string)
    requires '@' !in l && '@' !in d
    requires var t := l + "@" + d; !IsSpace(t[0]) && !IsSpace(t[|t| - 1])
    requires !LocalPartOk(l) || !DomainOk(d)
    ensures !ValidAddress(l + "@" + d)
  {
    var t := l + "@" + d;
    assert t[..|l|] == l && t[|l| + 1..] == d;
    Untrimmed(t);
    OneAt(t, |l|);
  }

  /** `test..test@example.com` is rejected: two dots in a row. */
  lemma RejectsDoubleDot(t: string)
    requires t == "test..test@example.com"
    ensures !ValidAddress(t)
  {
    var l, d := "test..test", "example.com";
    assert l[4] == l[5] == '.';
    assert t == l + "@" + d;
    RejectedParts(l, d);
  }

  /** `@example.com` is rejected: an empty local part. */
  lemma RejectsEmptyLocal(t: string)
    requires t == "@example.com"
    ensures !ValidAddress(t)
  {
    var l, d := "", "example.com";
    assert t == l + "@" + d;
    RejectedParts(l, d);
  }

  /** `test@` is rejected: an empty domain. */
  lemma RejectsEmptyDomain(t: string)
    requires t == "test@"
    ensures !ValidAddress(t)
  {
    var l, d := "test", "";
    assert Split(d, '.') == [""];
    assert t == l + "@" + d;
    RejectedParts(l, d);
  }

  /** `test@.com` is rejected: the domain starts with a dot. */
  lemma RejectsLeadingDot(t: string)
    requires t == "test@.com"
    ensures !ValidAddress(t)
  {
    var l, d := "test", ".com";
    SplitFirst(d, '.');
    assert t == l + "@" + d;
    RejectedParts(l, d);
  }

  /** `invalid` and the empty string are rejected: there is no `@`. */
  lemma RejectsNoAt(t: string)
    requires t == "invalid" || t == ""
    ensures !ValidAddress(t)
  {
    Untrimmed(t);
    assert '@' !in t;
  }

  /** 250 letters before `@example.com` are rejected: 262 bytes. */
  lemma RejectsTooLong(t: string)
    requires t == seq(250, _ => 'a') + "@example.com"
    ensures !ValidAddress(t)
  {
    assert t[0] == 'a' && t[|t| - 1] == 'm';
    Untrimmed(t);
  }

  /** The loop of `isValidEmail` over the domain labels: no label is empty
      or starts or ends with a hyphen. */
  method CheckLabels(labels: seq<string>) returns (ok: bool)
    ensures ok <==> forall j | 0 <= j < |labels| :: LabelCheckPasses(labels[j])
  {
    var i := 0;
    while i < |labels|
      invariant 0 <= i <= |labels|
      invariant forall j | 0 <= j < i :: LabelCheckPasses(labels[j])
    {
      var domainLabel := labels[i];
      if HasPrefix(domainLabel, "-") || HasSuffix(domainLabel, "-") || |domainLabel| == 0 {
        return false;
      }
      i := i + 1;
    }
    return true;
  }

  /** `isValidEmail`. */
  method IsValidEmail(email: string) returns (valid: bool)
    ensures valid == ValidAddress(email)
  {
    var t := TrimSpace(email);
    var n := ByteLen(t);
    if n == 0 || n > 254 {
      return false;
    }
    if !MatchesPattern(t) {
      if WellFormed(t) { PatternOfWellFormed(t); }
      return false;
    }
    var parts := Split(t, '@');
    if |parts| != 2 {
      WellFormedParts(t);
      return false;
    }
    var localPart := parts[0];
    var domainPart := parts[1];
    if HasPrefix(localPart, ".") || HasSuffix(localPart, ".") || Contains(localPart, "..") {
      CheckedPattern(t);
      return false;
    }
    if || HasPrefix(domainPart, "-") || HasSuffix(domainPart, "-")
       || HasPrefix(domainPart, ".") || HasSuffix(domainPart, ".")
       || Contains(domainPart, "..")
    {
      CheckedPattern(t);
      return false;
    }
    var labels := Split(domainPart, '.');
    if |labels| < 2 {
      CheckedPattern(t);
      return false;
    }
    var labelsOk := CheckLabels(labels);
    if !labelsOk {
      CheckedPattern(t);
      return false;
    }
    CheckedPattern(t);
    return true;
  }
}
