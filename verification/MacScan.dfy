/** The scanners that look for hardware and network addresses in untrusted
    text. Text is a sequence of characters; addresses are pure ASCII, so
    scanning characters finds what scanning UTF-8 bytes finds. */
module MacScan {
  import opened Prelude

  type Mac = s: seq<byte> | |s| == 6 witness [0, 0, 0, 0, 0, 0]

  const WINDOW: nat := 17

  predicate IsSeparator(c: char) {
    c == ':' || c == '-'
  }

  function HexValue(c: char): (r: Option<byte>)
    ensures r.Some? ==> r.value < 16 && !IsSeparator(c)
  {
    if '0' <= c <= '9' then Some(c as int - '0' as int)
    else if 'a' <= c <= 'f' then Some(c as int - 'a' as int + 10)
    else if 'A' <= c <= 'F' then Some(c as int - 'A' as int + 10)
    else None
  }

  /** Octet `k` of a window: two hexadecimal digits. */
  predicate OctetAt(w: string, k: nat)
    requires |w| == WINDOW && k < 6
  {
    HexValue(w[3 * k]).Some? && HexValue(w[3 * k + 1]).Some?
  }

  function OctetValue(w: string, k: nat): byte
    requires |w| == WINDOW && k < 6 && OctetAt(w, k)
  {
    HexValue(w[3 * k]).value as int * 16 + HexValue(w[3 * k + 1]).value
  }

  /** Six octets with one separator between all of them. */
  predicate MacShaped(w: string) {
    && |w| == WINDOW
    && IsSeparator(w[2]) && w[5] == w[2] && w[8] == w[2] && w[11] == w[2] && w[14] == w[2]
    && OctetAt(w, 0) && OctetAt(w, 1) && OctetAt(w, 2) && OctetAt(w, 3) && OctetAt(w, 4) && OctetAt(w, 5)
  }

  function MacOf(w: string): (r: Option<Mac>)
    requires |w| == WINDOW
    ensures r.Some? <==> MacShaped(w)
  {
    if MacShaped(w) then
      Some([OctetValue(w, 0), OctetValue(w, 1), OctetValue(w, 2),
            OctetValue(w, 3), OctetValue(w, 4), OctetValue(w, 5)])
    else None
  }

  method ParseMacWindow(w: string) returns (r: Option<Mac>)
    requires |w| == WINDOW
    ensures r == MacOf(w)
  {
    var sep := w[2];
    if !IsSeparator(sep) {
      return None;
    }
    var out: seq<byte> := [];
    for octet := 0 to 6
      invariant |out| == octet
      invariant forall k :: 0 <= k < octet ==> OctetAt(w, k) && out[k] == OctetValue(w, k)
      invariant octet > 1 ==> w[5] == sep
      invariant octet > 2 ==> w[8] == sep
      invariant octet > 3 ==> w[11] == sep
      invariant octet > 4 ==> w[14] == sep
    {
      var base := octet * 3;
      if octet < 5 && w[base + 2] != sep {
        return None;
      }
      var hi, lo := HexValue(w[base]), HexValue(w[base + 1]);
      if hi.None? || lo.None? {
        assert !OctetAt(w, octet);
        return None;
      }
      out := out + [hi.value as int * 16 + lo.value];
    }
    assert MacShaped(w);
    assert out == MacOf(w).value;
    return Some(out);
  }

  // ---------------------------------------------------------------------
  // The scan: greedy from the left, skipping past every hit.

  predicate MacAt(s: string, k: int) {
    0 <= k && k + WINDOW <= |s| && MacShaped(s[k..k + WINDOW])
  }

  function ValueAt(s: string, k: nat): (m: Mac)
    requires MacAt(s, k)
    ensures MacOf(s[k..k + WINDOW]) == Some(m)
  {
    MacOf(s[k..k + WINDOW]).value
  }

  /** Where the scan starting at `i` reports a window. */
  function Hits(s: string, i: nat): seq<nat>
    decreases |s| - i
  {
    if i + WINDOW > |s| then []
    else if MacAt(s, i) then [i] + Hits(s, i + WINDOW)
    else Hits(s, i + 1)
  }

  lemma {:induction false} HitsShaped(s: string, i: nat)
    ensures forall a :: 0 <= a < |Hits(s, i)| ==> i <= Hits(s, i)[a] && MacAt(s, Hits(s, i)[a])
    decreases |s| - i
  {
    if i + WINDOW <= |s| {
      HitsShaped(s, if MacAt(s, i) then i + WINDOW else i + 1);
    }
  }

  /** Reported windows are MAC-shaped and do not overlap. */
  lemma {:induction false} HitsDisjoint(s: string, i: nat)
    ensures forall a :: 0 <= a < |Hits(s, i)| ==> i <= Hits(s, i)[a] && MacAt(s, Hits(s, i)[a])
    ensures forall a, b :: 0 <= a < b < |Hits(s, i)| ==> Hits(s, i)[a] + WINDOW <= Hits(s, i)[b]
    decreases |s| - i
  {
    HitsShaped(s, i);
    if i + WINDOW <= |s| {
      var next := if MacAt(s, i) then i + WINDOW else i + 1;
      var rest := Hits(s, next);
      HitsDisjoint(s, next);
      assert Hits(s, i) == (if MacAt(s, i) then [i] else []) + rest;
    }
  }

  /** Every MAC-shaped window starts inside a reported one. */
  lemma {:induction false} HitsCover(s: string, i: nat, k: nat) returns (h: nat)
    requires i <= k && MacAt(s, k)
    ensures h in Hits(s, i) && h <= k < h + WINDOW
    decreases |s| - i
  {
    if MacAt(s, i) {
      if k < i + WINDOW {
        h := i;
      } else {
        h := HitsCover(s, i + WINDOW, k);
      }
    } else {
      h := HitsCover(s, i + 1, k);
    }
  }

  lemma HitsApart(s: string, h: nat, k: nat)
    requires h in Hits(s, 0) && k in Hits(s, 0) && h < k
    ensures h + WINDOW <= k
  {
    HitsDisjoint(s, 0);
    var a :| 0 <= a < |Hits(s, 0)| && Hits(s, 0)[a] == h;
    var b :| 0 <= b < |Hits(s, 0)| && Hits(s, 0)[b] == k;
    assert b < a ==> k + WINDOW <= h;
  }

  /** A window is reported exactly when it is MAC-shaped and no reported
      window starts in the sixteen places before it. */
  lemma HitsExact(s: string, k: nat)
    ensures k in Hits(s, 0) <==>
            MacAt(s, k) && forall h :: h in Hits(s, 0) && h < k ==> h + WINDOW <= k
  {
    if k in Hits(s, 0) {
      HitsDisjoint(s, 0);
      forall h | h in Hits(s, 0) && h < k ensures h + WINDOW <= k {
        HitsApart(s, h, k);
      }
    } else if MacAt(s, k) {
      var h := HitsCover(s, 0, k);
    }
  }

  /** No two MAC-shaped windows of the text share a place. */
  ghost predicate NoOverlap(s: string) {
    forall a: nat, b: nat :: MacAt(s, a) && MacAt(s, b) && a < b ==> a + WINDOW <= b
  }

  /** The scan reports every MAC-shaped window of a text exactly when no two of
      them overlap in it. */
  lemma AllReportedIff(s: string)
    ensures (forall k: nat :: MacAt(s, k) ==> k in Hits(s, 0)) <==> NoOverlap(s)
  {
    if forall k: nat :: MacAt(s, k) ==> k in Hits(s, 0) {
      forall a: nat, b: nat | MacAt(s, a) && MacAt(s, b) && a < b ensures a + WINDOW <= b {
        HitsApart(s, a, b);
      }
    }
    if NoOverlap(s) {
      forall k: nat | MacAt(s, k) ensures k in Hits(s, 0) {
        IsolatedIsReported(s, k);
      }
    }
  }

  /** No MAC-shaped window starts in the sixteen places before this one. */
  ghost predicate Isolated(s: string, k: nat) {
    MacAt(s, k) && forall j: nat :: MacAt(s, j) && j < k ==> j + WINDOW <= k
  }

  /** A window that no earlier one overlaps is reported, whatever the rest of the text. */
  lemma IsolatedIsReported(s: string, k: nat)
    requires Isolated(s, k)
    ensures k in Hits(s, 0)
  {
    var h := HitsCover(s, 0, k);
    HitsDisjoint(s, 0);
  }

  /** Seven octets in a row: the window at 3 overlaps the one at 0. */
  const SEVEN_OCTETS: string := "00:11:22:" + "33:44:55:" + "66"

  /** The scan reports the window at 0 and misses the one at 3. */
  lemma OverlapIsMissed()
    ensures |SEVEN_OCTETS| == 20 && MacAt(SEVEN_OCTETS, 0) && MacAt(SEVEN_OCTETS, 3)
    ensures forall k :: k in Hits(SEVEN_OCTETS, 0) <==> k == 0
  {
    var s := SEVEN_OCTETS;
    assert s[0..17] == "00:11:22:" + "33:44:55";
    assert s[3..20] == "11:22:" + "33:44:55:" + "66";
    HexDigits();
    assert MacAt(s, 0) && MacAt(s, 3);
    HitsDisjoint(s, 0);
    HitsExact(s, 0);
    forall k | k in Hits(s, 0) ensures k == 0 {
      HitsExact(s, k);
    }
  }

  lemma HexDigits()
    ensures forall c: char :: '0' <= c <= '9' ==> HexValue(c).Some?
  {
  }

  lemma NotBeforeSeparator(s: string, i: nat, k: nat)
    requires i < k && MacAt(s, k)
    requires forall j :: i <= j < k ==> !IsSeparator(s[j])
    ensures !MacAt(s, i)
  {
    var w := s[k..k + WINDOW];
    assert OctetAt(w, 0) && w[0] == s[k] && w[1] == s[k + 1];
    assert !IsSeparator(s[i + 2]);
    assert s[i..i + WINDOW][2] == s[i + 2];
  }

  /** A MAC-shaped window preceded by no separator is always reported. */
  lemma {:induction false} FirstSeparatorFound(s: string, i: nat, k: nat)
    requires i <= k && MacAt(s, k)
    requires forall j :: i <= j < k ==> !IsSeparator(s[j])
    ensures k in Hits(s, i)
    decreases k - i
  {
    if i < k {
      NotBeforeSeparator(s, i, k);
      FirstSeparatorFound(s, i + 1, k);
    }
  }

  /** What the scan starting at `i` reports. */
  function MacsFrom(s: string, i: nat): seq<Mac>
    decreases |s| - i
  {
    if i + WINDOW > |s| then []
    else if MacAt(s, i) then [ValueAt(s, i)] + MacsFrom(s, i + WINDOW)
    else MacsFrom(s, i + 1)
  }

  function Macs(s: string): seq<Mac> {
    MacsFrom(s, 0)
  }

  lemma {:induction false} MacsAreAtHits(s: string, i: nat, mac: Mac)
    ensures mac in MacsFrom(s, i) <==> exists k :: k in Hits(s, i) && MacAt(s, k) && ValueAt(s, k) == mac
    decreases |s| - i
  {
    if i + WINDOW <= |s| {
      if MacAt(s, i) {
        MacsAreAtHits(s, i + WINDOW, mac);
        assert i in Hits(s, i);
        if ValueAt(s, i) != mac {
          assert forall k :: k in Hits(s, i) && k != i ==> k in Hits(s, i + WINDOW);
        }
      } else {
        MacsAreAtHits(s, i + 1, mac);
      }
    }
  }

  method ScanMacCandidates(s: string) returns (found: seq<Mac>)
    ensures found == Macs(s)
  {
    found := [];
    var i := 0;
    while i + WINDOW <= |s|
      invariant 0 <= i
      invariant Macs(s) == found + MacsFrom(s, i)
      decreases |s| - i
    {
      var mac := ParseMacWindow(s[i..i + WINDOW]);
      if mac.Some? {
        assert MacAt(s, i) && ValueAt(s, i) == mac.value;
        found := found + [mac.value];
        i := i + WINDOW;
      } else {
        assert !MacAt(s, i);
        i := i + 1;
      }
    }
  }

  // ---------------------------------------------------------------------
  // The second pass, over the text without its whitespace.

  /** Unicode `White_Space`. */
  predicate IsWhitespace(c: char) {
    var n := c as int;
    || 0x9 <= n <= 0xD || n == 0x20 || n == 0x85 || n == 0xA0 || n == 0x1680
    || 0x2000 <= n <= 0x200A || n == 0x2028 || n == 0x2029 || n == 0x202F || n == 0x205F || n == 0x3000
  }

  function Stripped(s: string): (r: string)
    ensures |r| <= |s|
    ensures forall c :: c in r <==> c in s && !IsWhitespace(c)
    ensures |r| == |s| ==> r == s
  {
    if s == [] then []
    else if IsWhitespace(s[0]) then Stripped(s[1..])
    else [s[0]] + Stripped(s[1..])
  }

  function AllMacs(s: string): seq<Mac> {
    if Stripped(s) == s then Macs(s) else Macs(s) + Macs(Stripped(s))
  }

  method ScanIncludingWhitespaceObfuscated(s: string) returns (found: seq<Mac>)
    ensures found == AllMacs(s)
  {
    found := ScanMacCandidates(s);
    var stripped := Stripped(s);
    if stripped != s {
      var more := ScanMacCandidates(stripped);
      found := found + more;
    }
  }

  /** A MAC in either separator and any case, with whitespace anywhere inside
      or around it, is found if no separator comes before it. */
  lemma SpelledMacFound(s: string, before: string, w: string, after: string)
    requires Stripped(s) == before + w + after
    requires |w| == WINDOW && MacShaped(w)
    requires forall c :: c in before ==> !IsSeparator(c)
    ensures MacOf(w).value in AllMacs(s)
  {
    var t := Stripped(s);
    var k := |before|;
    assert t[k..k + WINDOW] == w;
    forall j | 0 <= j < k ensures !IsSeparator(t[j]) {
      assert t[j] == before[j];
    }
    FirstSeparatorFound(t, 0, k);
    assert ValueAt(t, k) == MacOf(w).value;
    MacsAreAtHits(t, 0, MacOf(w).value);
  }

  /** An isolated spelling, in the text or in the text without its whitespace, is found. */
  lemma IsolatedMacFound(s: string, t: string, k: nat)
    requires (t == s || t == Stripped(s)) && Isolated(t, k)
    ensures ValueAt(t, k) in AllMacs(s)
  {
    IsolatedIsReported(t, k);
    MacsAreAtHits(t, 0, ValueAt(t, k));
  }

  lemma {:induction false} StrippedSame(s: string)
    requires forall c :: c in s ==> !IsWhitespace(c)
    ensures Stripped(s) == s
  {
    if s != [] {
      StrippedSame(s[1..]);
    }
  }

  /** Everything found is spelled out in the text, or in the text without its whitespace. */
  lemma FoundIsSpelled(s: string, mac: Mac) returns (t: string, k: nat)
    requires mac in AllMacs(s)
    ensures (t == s || t == Stripped(s)) && MacAt(t, k) && ValueAt(t, k) == mac
  {
    t := if mac in Macs(s) then s else Stripped(s);
    MacsAreAtHits(t, 0, mac);
    k :| k in Hits(t, 0) && MacAt(t, k) && ValueAt(t, k) == mac;
  }

  // ---------------------------------------------------------------------
  // The canonical spelling.

  function HexDigit(n: byte): (c: char)
    requires n < 16
    ensures HexValue(c) == Some(n)
  {
    if n < 10 then (n + '0' as int) as char else (n - 10 + 'a' as int) as char
  }

  function HexByte(b: byte): (r: string)
    ensures |r| == 2
    ensures HexValue(r[0]) == Some(b / 16) && HexValue(r[1]) == Some(b % 16)
  {
    [HexDigit(b / 16), HexDigit(b % 16)]
  }

  function FormatMac(m: Mac): (w: string)
    ensures |w| == WINDOW
  {
    HexByte(m[0]) + ":" + HexByte(m[1]) + ":" + HexByte(m[2]) + ":"
    + HexByte(m[3]) + ":" + HexByte(m[4]) + ":" + HexByte(m[5])
  }

  lemma FormatParses(m: Mac)
    ensures MacOf(FormatMac(m)) == Some(m)
  {
    var w := FormatMac(m);
    FormatAt(m);
    assert MacShaped(w);
    assert MacOf(w).value == m;
  }

  predicate IsUpperHex(c: char) {
    'A' <= c <= 'F'
  }

  lemma DigitNormalised(c: char)
    requires HexValue(c).Some?
    ensures HexDigit(HexValue(c).value) == c <==> !IsUpperHex(c)
  {
  }

  /** Two digits come back as they were exactly when neither is upper-case. */
  lemma OctetNormalised(high: char, low: char)
    requires HexValue(high).Some? && HexValue(low).Some?
    ensures HexByte(HexValue(high).value as int * 16 + HexValue(low).value) == [high, low] <==>
            !IsUpperHex(high) && !IsUpperHex(low)
  {
    var h, l := HexValue(high).value, HexValue(low).value;
    assert (h as int * 16 + l) / 16 == h && (h as int * 16 + l) % 16 == l;
    DigitNormalised(high);
    DigitNormalised(low);
    assert [HexDigit(h), HexDigit(l)][0] == HexDigit(h) && [HexDigit(h), HexDigit(l)][1] == HexDigit(l);
  }

  predicate LowerOctet(w: string, k: nat)
    requires |w| == WINDOW && k < 6
  {
    !IsUpperHex(w[3 * k]) && !IsUpperHex(w[3 * k + 1])
  }

  lemma LowerWindow(w: string)
    requires |w| == WINDOW && MacShaped(w)
    ensures (forall c :: c in w ==> !IsUpperHex(c)) <==>
            LowerOctet(w, 0) && LowerOctet(w, 1) && LowerOctet(w, 2)
            && LowerOctet(w, 3) && LowerOctet(w, 4) && LowerOctet(w, 5)
  {
    if LowerOctet(w, 0) && LowerOctet(w, 1) && LowerOctet(w, 2)
       && LowerOctet(w, 3) && LowerOctet(w, 4) && LowerOctet(w, 5) {
      forall i | 0 <= i < |w| ensures !IsUpperHex(w[i]) {
      }
    }
  }

  function Octet(w: string, k: nat): string
    requires |w| == WINDOW && k < 6
  {
    [w[3 * k], w[3 * k + 1]]
  }

  lemma FormatOctet(m: Mac, k: nat)
    requires k < 6
    ensures Octet(FormatMac(m), k) == HexByte(m[k])
  {
    FormatAt(m);
  }

  lemma ValueOctet(w: string, k: nat)
    requires |w| == WINDOW && MacShaped(w) && k < 6
    ensures OctetAt(w, k) && MacOf(w).value[k] == OctetValue(w, k)
  {
  }

  lemma OctetSpelled(w: string, k: nat)
    requires |w| == WINDOW && k < 6 && OctetAt(w, k)
    ensures HexByte(OctetValue(w, k)) == Octet(w, k) <==> LowerOctet(w, k)
  {
    OctetNormalised(w[3 * k], w[3 * k + 1]);
  }

  /** An octet is formatted as it was written exactly when it was in lower case. */
  lemma OctetKept(w: string, m: Mac, k: nat)
    requires |w| == WINDOW && k < 6 && OctetAt(w, k) && m[k] == OctetValue(w, k)
    ensures Octet(FormatMac(m), k) == Octet(w, k) <==> LowerOctet(w, k)
  {
    FormatOctet(m, k);
    OctetSpelled(w, k);
  }

  lemma SameWindow(f: string, w: string)
    requires |f| == WINDOW && |w| == WINDOW
    requires f[2] == w[2] && f[5] == w[5] && f[8] == w[8] && f[11] == w[11] && f[14] == w[14]
    requires Octet(f, 0) == Octet(w, 0) && Octet(f, 1) == Octet(w, 1) && Octet(f, 2) == Octet(w, 2)
    requires Octet(f, 3) == Octet(w, 3) && Octet(f, 4) == Octet(w, 4) && Octet(f, 5) == Octet(w, 5)
    ensures f == w
  {
    PairSame(f[0], f[1], w[0], w[1]);
    PairSame(f[3], f[4], w[3], w[4]);
    PairSame(f[6], f[7], w[6], w[7]);
    PairSame(f[9], f[10], w[9], w[10]);
    PairSame(f[12], f[13], w[12], w[13]);
    PairSame(f[15], f[16], w[15], w[16]);
  }

  lemma PairSame(a: char, b: char, c: char, d: char)
    requires [a, b] == [c, d]
    ensures a == c && b == d
  {
    assert [a, b][0] == a && [a, b][1] == b && [c, d][0] == c && [c, d][1] == d;
  }

  lemma FormatColons(m: Mac)
    ensures var f := FormatMac(m); f[2] == ':' && f[5] == ':' && f[8] == ':' && f[11] == ':' && f[14] == ':'
  {
    FormatAt(m);
  }

  lemma OctetsKept(w: string)
    requires |w| == WINDOW && MacShaped(w)
    ensures forall k :: 0 <= k < 6 ==> (Octet(FormatMac(MacOf(w).value), k) == Octet(w, k) <==> LowerOctet(w, k))
  {
    forall k | 0 <= k < 6 ensures Octet(FormatMac(MacOf(w).value), k) == Octet(w, k) <==> LowerOctet(w, k) {
      ValueOctet(w, k);
      OctetKept(w, MacOf(w).value, k);
    }
  }

  /** Formatting returns the text that was found exactly when that text uses colons
      and no upper-case digit. */
  lemma NormalisedIff(w: string)
    requires |w| == WINDOW && MacShaped(w)
    ensures FormatMac(MacOf(w).value) == w <==> w[2] == ':' && forall c :: c in w ==> !IsUpperHex(c)
  {
    FormatColons(MacOf(w).value);
    OctetsKept(w);
    LowerWindow(w);
    if w[2] == ':' && forall c :: c in w ==> !IsUpperHex(c) {
      SameWindow(FormatMac(MacOf(w).value), w);
    }
  }

  lemma FormatAt(m: Mac)
    ensures var w := FormatMac(m);
            && w[2] == ':' && w[5] == ':' && w[8] == ':' && w[11] == ':' && w[14] == ':'
            && [w[0], w[1]] == HexByte(m[0]) && [w[3], w[4]] == HexByte(m[1]) && [w[6], w[7]] == HexByte(m[2])
            && [w[9], w[10]] == HexByte(m[3]) && [w[12], w[13]] == HexByte(m[4]) && [w[15], w[16]] == HexByte(m[5])
  {
  }

  /** White space in the sense of Unicode. */
  lemma WhitespaceIs(c: char)
    ensures IsWhitespace(c) <==>
            c as int in {0x9, 0xA, 0xB, 0xC, 0xD, 0x20, 0x85, 0xA0, 0x1680, 0x2000, 0x2001, 0x2002, 0x2003, 0x2004,
                         0x2005, 0x2006, 0x2007, 0x2008, 0x2009, 0x200A, 0x2028, 0x2029, 0x202F, 0x205F, 0x3000}
  {
  }

  predicate HexText(s: string) {
    forall i :: 0 <= i < |s| ==> '0' <= s[i] <= '9' || 'a' <= s[i] <= 'f' || 'A' <= s[i] <= 'F'
  }

  /** What a MAC is: six pairs of hexadecimal digits in either case, joined by colons or
      joined by hyphens. */
  lemma MacShapeIff(w: string)
    requires |w| == 17
    ensures MacShaped(w) <==>
            && (w[2] == w[5] == w[8] == w[11] == w[14] == ':' || w[2] == w[5] == w[8] == w[11] == w[14] == '-')
            && HexText(w[0..2]) && HexText(w[3..5]) && HexText(w[6..8])
            && HexText(w[9..11]) && HexText(w[12..14]) && HexText(w[15..17])
  {
    forall k: nat | k < 6 ensures OctetAt(w, k) <==> HexText(w[3 * k..3 * k + 2]) {
      PairIsHex(w, k);
    }
    assert w[0..2] == w[3 * 0..3 * 0 + 2] && w[3..5] == w[3 * 1..3 * 1 + 2] && w[6..8] == w[3 * 2..3 * 2 + 2];
    assert w[9..11] == w[3 * 3..3 * 3 + 2] && w[12..14] == w[3 * 4..3 * 4 + 2] && w[15..17] == w[3 * 5..3 * 5 + 2];
  }

  lemma PairIsHex(w: string, k: nat)
    requires |w| == 17 && k < 6
    ensures OctetAt(w, k) <==> HexText(w[3 * k..3 * k + 2])
  {
    var p := w[3 * k..3 * k + 2];
    assert p[0] == w[3 * k] && p[1] == w[3 * k + 1];
  }
}
