/** `isLocalhost` of the service-worker registration: the page is served from
    the loopback host when its host name is `localhost`, the IPv6 loopback
    address `[::1]` (section 2.5.3 of RFC 4291), or a dotted-decimal address in
    the 127.0.0.0/8 block (section 3.2.1.3 of RFC 1122) matching
    `^127(?:\.(?:25[0-5]|2[0-4]\d|[01]?\d\d?)){3}$`.

    The pattern is modelled alternative by alternative, and proved equal to a
    reference definition that splits the name at its dots and reads each part
    as a number. */
module Loopback {
  import opened Js

  // ---------------------------------------------------------------------------
  // The pattern as written

  /** `\d`: an ASCII decimal digit. */
  predicate D(c: char) {
    '0' <= c <= '9'
  }

  /** `25[0-5]|2[0-4]\d|[01]?\d\d?`, matched against the whole of `o`. */
  predicate OctetMatch(o: string) {
    || (|o| == 3 && o[0] == '2' && o[1] == '5' && '0' <= o[2] <= '5')
    || (|o| == 3 && o[0] == '2' && '0' <= o[1] <= '4' && D(o[2]))
    // `[01]?\d\d?` without the optional first character ...
    || (|o| == 1 && D(o[0]))
    || (|o| == 2 && D(o[0]) && D(o[1]))
    // ... and with it
    || (|o| == 2 && (o[0] == '0' || o[0] == '1') && D(o[1]))
    || (|o| == 3 && (o[0] == '0' || o[0] == '1') && D(o[1]) && D(o[2]))
  }

  /** `(?:\.(?:…)){k}` matched against the whole of `s`: `k` groups, each a dot
      and an octet of one, two or three characters. */
  predicate GroupsMatch(s: string, k: nat)
    decreases k
  {
    if k == 0 then |s| == 0
    else
      && |s| > 0 && s[0] == '.'
      && ((|s| >= 2 && OctetMatch(s[1..2]) && GroupsMatch(s[2..], k - 1))
       || (|s| >= 3 && OctetMatch(s[1..3]) && GroupsMatch(s[3..], k - 1))
       || (|s| >= 4 && OctetMatch(s[1..4]) && GroupsMatch(s[4..], k - 1)))
  }

  /** The anchored pattern: `127` and then exactly three groups. */
  predicate MatchesLoopbackPattern(h: string) {
    |h| >= 3 && h[..3] == "127" && GroupsMatch(h[3..], 3)
  }

  /** `isLocalhost` for the page's host name. */
  predicate IsLocalhost(h: string) {
    h == "localhost" || h == "[::1]" || MatchesLoopbackPattern(h)
  }

  // ---------------------------------------------------------------------------
  // The reference: four dot-separated parts, `127` and three octets

  /** An octet written in one to three decimal digits (leading zeros allowed)
      whose value is at most 255. */
  predicate ValidOctet(o: string) {
    1 <= |o| <= 3 && AllDigits(o, 10) && DigitsValue(o, 10) <= 255
  }

  predicate DotFree(w: string) {
    forall i | 0 <= i < |w| :: w[i] != '.'
  }

  /** The parts of `s` between its dots; there is always at least one. */
  function SplitDots(s: string): (parts: seq<string>)
    ensures |parts| >= 1
    ensures forall i | 0 <= i < |parts| :: DotFree(parts[i])
  {
    if |s| == 0 then [""]
    else
      var rest := SplitDots(s[1..]);
      if s[0] == '.' then [""] + rest
      else [[s[0]] + rest[0]] + rest[1..]
  }

  /** A dotted-decimal address in 127.0.0.0/8 written with decimal octets. */
  predicate IsLoopbackAddress(h: string) {
    var parts := SplitDots(h);
    && |parts| == 4
    && parts[0] == "127"
    && forall i | 1 <= i < 4 :: ValidOctet(parts[i])
  }

  // ---------------------------------------------------------------------------
  // Octets

  lemma ThreeDigitValue(o: string)
    requires |o| == 3 && AllDigits(o, 10)
    ensures DigitsValue(o, 10) == 100 * DigitValue(o[0]) + 10 * DigitValue(o[1]) + DigitValue(o[2])
  {
    var p := o[..2];
    assert p[..1] == o[..1] && p[1] == o[1];
    assert o[..1][..0] == [] && o[..1][0] == o[0];
    assert DigitsValue(o[..1], 10) == DigitValue(o[0]);
    assert DigitsValue(p, 10) == 10 * DigitValue(o[0]) + DigitValue(o[1]);
  }

  lemma TwoDigitValue(o: string)
    requires |o| == 2 && AllDigits(o, 10)
    ensures DigitsValue(o, 10) == 10 * DigitValue(o[0]) + DigitValue(o[1])
  {
    assert o[..1][..0] == [] && o[..1][0] == o[0];
    assert DigitsValue(o[..1], 10) == DigitValue(o[0]);
  }

  /** The alternatives of the octet pattern accept exactly the octets of
      value at most 255. */
  lemma OctetMatchIsValidOctet(o: string)
    ensures OctetMatch(o) <==> ValidOctet(o)
  {
    if 1 <= |o| <= 3 && AllDigits(o, 10) {
      if |o| == 3 {
        assert IsRadixDigit(o[0], 10) && IsRadixDigit(o[1], 10) && IsRadixDigit(o[2], 10);
        ThreeDigitValue(o);
      } else if |o| == 2 {
        assert IsRadixDigit(o[0], 10) && IsRadixDigit(o[1], 10);
        TwoDigitValue(o);
      } else {
        assert IsRadixDigit(o[0], 10);
        assert o[..0] == [];
        assert DigitsValue(o, 10) == DigitValue(o[0]);
        assert D(o[0]);
      }
    } else if OctetMatch(o) {
      assert AllDigits(o, 10);
    }
  }

  // ---------------------------------------------------------------------------
  // Splitting

  lemma {:induction false} SplitDotFree(w: string)
    requires DotFree(w)
    ensures SplitDots(w) == [w]
  {
    if |w| > 0 {
      SplitDotFree(w[1..]);
      assert w == [w[0]] + w[1..];
    }
  }

  /** A dot-free word followed by a dot is the first part. */
  lemma {:induction false} SplitAfterWord(w: string, r: string)
    requires DotFree(w)
    ensures SplitDots(w + ['.'] + r) == [w] + SplitDots(r)
  {
    if |w| == 0 {
      assert w + ['.'] + r == ['.'] + r;
      assert (['.'] + r)[1..] == r;
    } else {
      SplitAfterWord(w[1..], r);
      assert (w + ['.'] + r)[1..] == w[1..] + ['.'] + r;
      assert w == [w[0]] + w[1..];
    }
  }

  /** The first part of a split is a prefix of the text; when more parts
      follow, a dot comes after it and the rest splits into those parts. */
  lemma {:induction false} SplitHead(t: string)
    ensures
      var parts := SplitDots(t);
      var n := |parts[0]|;
      && n <= |t| && t[..n] == parts[0]
      && (|parts| == 1 ==> t == parts[0])
      && (|parts| > 1 ==> n < |t| && t[n] == '.' && SplitDots(t[n + 1..]) == parts[1..])
  {
    if |t| > 0 {
      SplitHead(t[1..]);
      if t[0] != '.' {
        var rest := SplitDots(t[1..]);
        var n := |rest[0]|;
        assert t[1..][..n] == rest[0];
        assert t[..n + 1] == [t[0]] + rest[0];
        if |rest| > 1 {
          assert t[n + 1] == t[1..][n];
          assert t[n + 2..] == t[1..][n + 1..];
        }
      }
    }
  }

  /** A dot followed by `k` dot-separated octets. */
  predicate SplitGroups(s: string, k: nat) {
    && |s| > 0 && s[0] == '.'
    && var parts := SplitDots(s[1..]);
    && |parts| == k
    && forall i | 0 <= i < k :: ValidOctet(parts[i])
  }

  /** Groups the pattern matched are dot-separated octets. */
  lemma {:induction false} GroupsMatchToSplit(s: string, k: nat)
    requires k >= 1 && GroupsMatch(s, k)
    ensures SplitGroups(s, k)
    decreases k, 1
  {
    if |s| >= 2 && OctetMatch(s[1..2]) && GroupsMatch(s[2..], k - 1) {
      OneGroupToSplit(s, 1, k);
    } else if |s| >= 3 && OctetMatch(s[1..3]) && GroupsMatch(s[3..], k - 1) {
      OneGroupToSplit(s, 2, k);
    } else {
      OneGroupToSplit(s, 3, k);
    }
  }

  /** The first group took `len` characters after its dot. */
  lemma {:induction false} OneGroupToSplit(s: string, len: nat, k: nat)
    requires 1 <= len <= 3 && k >= 1 && |s| >= len + 1 && s[0] == '.'
    requires OctetMatch(s[1..len + 1]) && GroupsMatch(s[len + 1..], k - 1)
    ensures SplitGroups(s, k)
    decreases k, 0
  {
    var t := s[1..];
    var w := s[1..len + 1];
    var rest := s[len + 1..];
    assert ValidOctet(w) && DotFree(w) by {
      OctetMatchIsValidOctet(w);
      assert AllDigits(w, 10);
    }
    if k == 1 {
      assert t == w;
      SplitDotFree(w);
    } else {
      var tail := SplitDots(rest[1..]);
      assert |tail| == k - 1 && forall i | 0 <= i < k - 1 :: ValidOctet(tail[i]) by {
        GroupsMatchToSplit(rest, k - 1);
      }
      assert SplitDots(t) == [w] + tail by {
        assert t == w + ['.'] + rest[1..];
        SplitAfterWord(w, rest[1..]);
      }
    }
  }

  /** Dot-separated octets are groups the pattern matches. */
  lemma {:induction false} SplitToGroupsMatch(s: string, k: nat)
    requires k >= 1 && SplitGroups(s, k)
    ensures GroupsMatch(s, k)
    decreases k
  {
    var t := s[1..];
    var parts := SplitDots(t);
    SplitHead(t);
    var o := parts[0];
    var n := |o|;
    assert ValidOctet(o);
    OctetMatchIsValidOctet(o);
    assert s[1..n + 1] == o;
    var rest := s[n + 1..];
    if k == 1 {
      assert rest == [];
    } else {
      assert rest == ['.'] + t[n + 1..];
      assert rest[1..] == t[n + 1..];
      var tail := SplitDots(rest[1..]);
      assert tail == parts[1..];
      forall i | 0 <= i < k - 1 ensures ValidOctet(tail[i]) {
        assert tail[i] == parts[i + 1];
      }
      SplitToGroupsMatch(rest, k - 1);
    }
    assert GroupsMatch(s[n + 1..], k - 1);
  }

  /** `k` groups are exactly a dot followed by `k` dot-separated octets. */
  lemma GroupsMatchIsSplit(s: string, k: nat)
    requires k >= 1
    ensures GroupsMatch(s, k) <==> SplitGroups(s, k)
  {
    if GroupsMatch(s, k) {
      GroupsMatchToSplit(s, k);
    }
    if SplitGroups(s, k) {
      SplitToGroupsMatch(s, k);
    }
  }

  // ---------------------------------------------------------------------------
  // The pattern against the reference

  /** The regular expression accepts exactly the dotted-decimal 127.x.y.z
      addresses whose last three octets are one to three digits of value at
      most 255. */
  lemma PatternIsLoopbackAddress(h: string)
    ensures MatchesLoopbackPattern(h) <==> IsLoopbackAddress(h)
  {
    var parts := SplitDots(h);
    SplitHead(h);
    if MatchesLoopbackPattern(h) {
      var s := h[3..];
      GroupsMatchIsSplit(s, 3);
      assert h == "127" + ['.'] + s[1..];
      SplitAfterWord("127", s[1..]);
      var tail := SplitDots(s[1..]);
      assert parts == ["127"] + tail;
      forall i | 1 <= i < 4 ensures ValidOctet(parts[i]) {
        assert parts[i] == tail[i - 1];
      }
    }
    if IsLoopbackAddress(h) {
      assert h[..3] == "127";
      var s := h[3..];
      assert s[0] == '.';
      assert s[1..] == h[4..];
      var tail := SplitDots(s[1..]);
      assert tail == parts[1..];
      forall i | 0 <= i < 3 ensures ValidOctet(tail[i]) {
        assert tail[i] == parts[i + 1];
      }
      GroupsMatchIsSplit(s, 3);
    }
  }

  /** Among host names without a dot, exactly `localhost` and `[::1]` are
      local. */
  lemma UndottedLocalNames(h: string)
    requires DotFree(h)
    ensures IsLocalhost(h) <==> h == "localhost" || h == "[::1]"
  {
  }

  // ---------------------------------------------------------------------------
  // Examples

  /** A fact about the pattern: the browser hands over host names already
      normalised, so `127.000.0.1` itself arrives as `127.0.0.1`. */
  lemma LeadingZerosAccepted()
    ensures IsLocalhost("127.000.0.1")
  {
    var s := ".000.0.1";
    assert "127.000.0.1"[..3] == "127" && "127.000.0.1"[3..] == s;
    assert s[1..4] == "000" && OctetMatch("000");
    assert s[4..] == ".0.1" && s[4..][1..2] == "0" && s[4..][2..] == ".1";
    assert ".1"[1..2] == "1" && ".1"[2..] == [];
  }

  lemma OctetAbove255Rejected()
    ensures !IsLocalhost("127.256.0.1")
  {
    var s := ".256.0.1";
    assert "127.256.0.1"[3..] == s;
    assert s[2..][0] == '5' && s[3..][0] == '6';
    assert s[1..4] == "256";
  }

  lemma FourDigitOctetRejected()
    ensures !IsLocalhost("127.0255.0.1")
  {
    var s := ".0255.0.1";
    assert "127.0255.0.1"[3..] == s;
    assert s[2..][0] == '2' && s[3..][0] == '5' && s[4..][0] == '5';
  }

  lemma ShortAddressRejected()
    ensures !IsLocalhost("127.0.0")
  {
    var s := ".0.0";
    assert "127.0.0"[3..] == s;
    assert s[1..2] == "0" && s[2..] == ".0";
    assert ".0"[2..] == [];
  }

  lemma LongAddressRejected()
    ensures !IsLocalhost("127.0.0.1.5")
  {
    var s := ".0.0.1.5";
    assert "127.0.0.1.5"[3..] == s;
    assert s[1..2] == "0" && s[2..] == ".0.1.5";
    assert ".0.1.5"[1..2] == "0" && ".0.1.5"[2..] == ".1.5";
    assert ".1.5"[1..2] == "1" && ".1.5"[2..] == ".5";
    assert !GroupsMatch(".1.5", 1) by {
      assert !OctetMatch(".1.5"[1..3]) && !OctetMatch(".1.5"[1..4]);
    }
    assert !GroupsMatch(".0.1.5", 2) by {
      assert !OctetMatch(".0.1.5"[1..3]) && !OctetMatch(".0.1.5"[1..4]);
    }
    assert !OctetMatch(s[1..3]) && !OctetMatch(s[1..4]);
  }

  lemma WrongPrefixRejected()
    ensures !IsLocalhost("1270.0.0.1")
    ensures !IsLocalhost("10.0.0.1")
  {
    assert "1270.0.0.1"[3..][0] == '0';
    assert "10.0.0.1"[..3] == "10.";
  }
}
