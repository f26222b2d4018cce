/** Screening the parameters of a proposed intent: does any of them name a
    protected device, or match a pattern denied to the capability? */
module Screening {
  import opened Prelude
  import opened MacScan
  import opened Ipv4Scan

  datatype ConstraintValue =
    | Text(text: string)
    | Int(integer: int)
    | Float(number: real)
    | Bool(flag: bool)
    | Range(min: real, max: real)
    | OneOf(values: seq<string>)

  datatype Constraint = Constraint(key: string, value: ConstraintValue)

  datatype ProtectedResource = ProtectedResource(
    name: Option<string>,
    mac: Mac,
    macDisplay: string,
    ip: Option<string>)

  datatype ProtectedMatch = ProtectedMatch(
    resourceName: Option<string>,
    resourceMac: string,
    resourceIp: Option<string>,
    matchedValue: string,
    parameterKey: string)

  datatype DeniedMatch = DeniedMatch(parameterKey: string, pattern: string, capability: string)

  datatype ProposeError =
    | ProtectedResourceSectionMissing
    | TargetsProtectedResource(target: ProtectedMatch)
    | ArgumentConstraintViolation(denied: DeniedMatch)

  /** The parts of a loaded policy that screening consults: the protected
      devices, if the file has that section at all, and the denied substrings
      of each registered capability. */
  datatype Screen = Screen(protected: Option<seq<ProtectedResource>>, denied: map<string, seq<string>>)

  /** The strings of a value that could spell an address. */
  function Scannable(v: ConstraintValue): seq<string> {
    match v
    case Text(s) => [s]
    case OneOf(values) => values
    case _ => []
  }

  function Matched(p: ProtectedResource, value: string, key: string): ProtectedMatch {
    ProtectedMatch(p.name, p.macDisplay, p.ip, value, key)
  }

  // ---------------------------------------------------------------------
  // First match: in parameter order, then string order, then MACs before IPs.

  function FindByMac(protected: seq<ProtectedResource>, mac: Mac): (r: Option<ProtectedResource>)
    ensures r.Some? <==> exists p :: p in protected && p.mac == mac
    ensures r.Some? ==> r.value in protected && r.value.mac == mac
  {
    if protected == [] then None
    else if protected[0].mac == mac then Some(protected[0])
    else FindByMac(protected[1..], mac)
  }

  function FindByIp(protected: seq<ProtectedResource>, ip: string): (r: Option<ProtectedResource>)
    ensures r.Some? <==> exists p :: p in protected && p.ip == Some(ip)
    ensures r.Some? ==> r.value in protected && r.value.ip == Some(ip)
  {
    if protected == [] then None
    else if protected[0].ip == Some(ip) then Some(protected[0])
    else FindByIp(protected[1..], ip)
  }

  function MatchMacs(protected: seq<ProtectedResource>, key: string, macs: seq<Mac>): Option<ProtectedMatch> {
    if macs == [] then None
    else
      var p := FindByMac(protected, macs[0]);
      if p.Some? then Some(Matched(p.value, FormatMac(macs[0]), key))
      else MatchMacs(protected, key, macs[1..])
  }

  function MatchIps(protected: seq<ProtectedResource>, key: string, ips: seq<string>): Option<ProtectedMatch> {
    if ips == [] then None
    else
      var p := FindByIp(protected, ips[0]);
      if p.Some? then Some(Matched(p.value, ips[0], key))
      else MatchIps(protected, key, ips[1..])
  }

  function MatchText(protected: seq<ProtectedResource>, key: string, text: string): Option<ProtectedMatch> {
    var m := MatchMacs(protected, key, AllMacs(text));
    if m.Some? then m else MatchIps(protected, key, Ips(text))
  }

  function MatchTexts(protected: seq<ProtectedResource>, key: string, texts: seq<string>): Option<ProtectedMatch> {
    if texts == [] then None
    else
      var m := MatchText(protected, key, texts[0]);
      if m.Some? then m else MatchTexts(protected, key, texts[1..])
  }

  function MatchConstraint(protected: seq<ProtectedResource>, c: Constraint): Option<ProtectedMatch> {
    MatchTexts(protected, c.key, Scannable(c.value))
  }

  function MatchParameters(protected: seq<ProtectedResource>, parameters: seq<Constraint>): Option<ProtectedMatch> {
    if parameters == [] then None
    else
      var m := MatchConstraint(protected, parameters[0]);
      if m.Some? then m else MatchParameters(protected, parameters[1..])
  }

  // ---------------------------------------------------------------------
  // What a match means.

  /** `text` spells the hardware address of `p`, or contains its IP address as a token. */
  predicate Names(text: string, p: ProtectedResource) {
    p.mac in AllMacs(text) || (p.ip.Some? && p.ip.value in Ips(text))
  }

  /** What was found in `text`: the device's MAC, reported in its normalised form, or its IP. */
  predicate Triggers(text: string, p: ProtectedResource, value: string) {
    || (p.mac in AllMacs(text) && value == FormatMac(p.mac))
    || (p.ip == Some(value) && value in Ips(text))
  }

  predicate Describes(m: ProtectedMatch, p: ProtectedResource) {
    m.resourceName == p.name && m.resourceMac == p.macDisplay && m.resourceIp == p.ip
  }

  /** The match is about `p` and about what `text` triggered. */
  predicate Reports(m: ProtectedMatch, p: ProtectedResource, text: string) {
    Describes(m, p) && Triggers(text, p, m.matchedValue)
  }

  lemma {:induction false} MatchMacsExact(protected: seq<ProtectedResource>, key: string, macs: seq<Mac>)
    ensures var m := MatchMacs(protected, key, macs);
            && (m.Some? <==> exists p :: p in protected && p.mac in macs)
            && (m.Some? ==> m.value.parameterKey == key)
            && (m.Some? ==> exists p :: p in protected && p.mac in macs && Describes(m.value, p)
                                        && m.value.matchedValue == FormatMac(p.mac))
  {
    if macs != [] {
      var p := FindByMac(protected, macs[0]);
      if p.Some? {
        assert Describes(MatchMacs(protected, key, macs).value, p.value);
      } else {
        MatchMacsExact(protected, key, macs[1..]);
        assert forall x :: x in macs <==> x == macs[0] || x in macs[1..];
      }
    }
  }

  lemma {:induction false} MatchIpsExact(protected: seq<ProtectedResource>, key: string, ips: seq<string>)
    ensures var m := MatchIps(protected, key, ips);
            && (m.Some? <==> exists p :: p in protected && p.ip.Some? && p.ip.value in ips)
            && (m.Some? ==> m.value.parameterKey == key)
            && (m.Some? ==> exists p :: p in protected && p.ip == Some(m.value.matchedValue)
                                        && m.value.matchedValue in ips && Describes(m.value, p))
  {
    if ips != [] {
      var p := FindByIp(protected, ips[0]);
      if p.Some? {
        assert Describes(MatchIps(protected, key, ips).value, p.value);
      } else {
        MatchIpsExact(protected, key, ips[1..]);
        assert forall x :: x in ips <==> x == ips[0] || x in ips[1..];
      }
    }
  }

  lemma MatchTextExact(protected: seq<ProtectedResource>, key: string, text: string)
    ensures var m := MatchText(protected, key, text);
            && (m.Some? <==> exists p :: p in protected && Names(text, p))
            && (m.Some? ==> m.value.parameterKey == key)
            && (m.Some? ==> exists p :: p in protected && Reports(m.value, p, text))
  {
    MatchMacsExact(protected, key, AllMacs(text));
    MatchIpsExact(protected, key, Ips(text));
    var m := MatchMacs(protected, key, AllMacs(text));
    if m.Some? {
      var p :| p in protected && p.mac in AllMacs(text) && Describes(m.value, p)
               && m.value.matchedValue == FormatMac(p.mac);
      assert Reports(m.value, p, text);
    } else {
      var m := MatchIps(protected, key, Ips(text));
      if m.Some? {
        var p :| p in protected && p.ip == Some(m.value.matchedValue) && m.value.matchedValue in Ips(text)
                 && Describes(m.value, p);
        assert Reports(m.value, p, text);
      }
    }
  }

  lemma {:induction false} MatchTextsExact(protected: seq<ProtectedResource>, key: string, texts: seq<string>)
    ensures var m := MatchTexts(protected, key, texts);
            && (m.Some? <==> exists t, p :: t in texts && p in protected && Names(t, p))
            && (m.Some? ==> m.value.parameterKey == key)
            && (m.Some? ==> exists t, p :: t in texts && p in protected && Reports(m.value, p, t))
  {
    if texts != [] {
      MatchTextExact(protected, key, texts[0]);
      MatchTextsExact(protected, key, texts[1..]);
      assert forall t :: t in texts <==> t == texts[0] || t in texts[1..];
    }
  }

  /** The protected device `p` is named in parameter `c`. */
  predicate NamedIn(c: Constraint, p: ProtectedResource) {
    exists t :: t in Scannable(c.value) && Names(t, p)
  }

  lemma MatchConstraintExact(protected: seq<ProtectedResource>, c: Constraint)
    ensures var m := MatchConstraint(protected, c);
            && (m.Some? <==> exists p :: p in protected && NamedIn(c, p))
            && (m.Some? ==> m.value.parameterKey == c.key)
            && (m.Some? ==> exists t, p :: t in Scannable(c.value) && p in protected && Reports(m.value, p, t))
  {
    MatchTextsExact(protected, c.key, Scannable(c.value));
  }

  /** A match is returned exactly when some parameter names some protected device. */
  lemma {:induction false} MatchParametersExact(protected: seq<ProtectedResource>, parameters: seq<Constraint>)
    ensures MatchParameters(protected, parameters).Some? <==>
            exists c, p :: c in parameters && p in protected && NamedIn(c, p)
  {
    if parameters != [] {
      MatchConstraintExact(protected, parameters[0]);
      MatchParametersExact(protected, parameters[1..]);
      assert forall c :: c in parameters <==> c == parameters[0] || c in parameters[1..];
    }
  }

  lemma {:induction false} TextOfMatch(protected: seq<ProtectedResource>, key: string, texts: seq<string>)
    returns (text: string)
    requires MatchTexts(protected, key, texts).Some?
    ensures text in texts && MatchText(protected, key, text) == MatchTexts(protected, key, texts)
  {
    text := texts[0];
    if MatchText(protected, key, text).None? {
      text := TextOfMatch(protected, key, texts[1..]);
    }
  }

  lemma {:induction false} ConstraintOfMatch(protected: seq<ProtectedResource>, parameters: seq<Constraint>)
    returns (c: Constraint, text: string)
    requires MatchParameters(protected, parameters).Some?
    ensures c in parameters && text in Scannable(c.value)
    ensures MatchText(protected, c.key, text) == MatchParameters(protected, parameters)
  {
    c := parameters[0];
    if MatchConstraint(protected, c).Some? {
      text := TextOfMatch(protected, c.key, Scannable(c.value));
    } else {
      c, text := ConstraintOfMatch(protected, parameters[1..]);
    }
  }

  /** A match is that of one text of one parameter, and reports a protected device that
      this text names. */
  lemma MatchIsReported(protected: seq<ProtectedResource>, parameters: seq<Constraint>)
    returns (c: Constraint, text: string, p: ProtectedResource)
    requires MatchParameters(protected, parameters).Some?
    ensures c in parameters && text in Scannable(c.value) && p in protected && Names(text, p)
    ensures MatchText(protected, c.key, text) == MatchParameters(protected, parameters)
    ensures MatchParameters(protected, parameters).value.parameterKey == c.key
    ensures Reports(MatchParameters(protected, parameters).value, p, text)
  {
    c, text := ConstraintOfMatch(protected, parameters);
    MatchTextExact(protected, c.key, text);
    p :| p in protected && Reports(MatchText(protected, c.key, text).value, p, text);
  }

  lemma {:induction false} FirstText(protected: seq<ProtectedResource>, key: string, texts: seq<string>)
    returns (j: nat)
    requires MatchTexts(protected, key, texts).Some?
    ensures j < |texts| && MatchText(protected, key, texts[j]) == MatchTexts(protected, key, texts)
    ensures forall h :: 0 <= h < j ==> MatchText(protected, key, texts[h]).None?
  {
    if MatchText(protected, key, texts[0]).Some? {
      j := 0;
    } else {
      j := FirstText(protected, key, texts[1..]);
      j := j + 1;
    }
  }

  lemma {:induction false} FirstParameter(protected: seq<ProtectedResource>, parameters: seq<Constraint>)
    returns (i: nat)
    requires MatchParameters(protected, parameters).Some?
    ensures i < |parameters| && MatchConstraint(protected, parameters[i]) == MatchParameters(protected, parameters)
    ensures forall h :: 0 <= h < i ==> MatchConstraint(protected, parameters[h]).None?
  {
    if MatchConstraint(protected, parameters[0]).Some? {
      i := 0;
    } else {
      i := FirstParameter(protected, parameters[1..]);
      i := i + 1;
    }
  }

  /** Which match is returned: that of the first parameter, and in it of the first string,
      to name a protected device; and there of a MAC before any address. */
  lemma FirstInOrder(protected: seq<ProtectedResource>, parameters: seq<Constraint>)
    returns (i: nat, j: nat, p: ProtectedResource)
    requires MatchParameters(protected, parameters).Some?
    ensures i < |parameters| && forall h, q :: 0 <= h < i && q in protected ==> !NamedIn(parameters[h], q)
    ensures var texts := Scannable(parameters[i].value);
            && j < |texts| && p in protected
            && (forall h, q :: 0 <= h < j && q in protected ==> !Names(texts[h], q))
            && MatchParameters(protected, parameters).value.parameterKey == parameters[i].key
            && Reports(MatchParameters(protected, parameters).value, p, texts[j])
            && ((exists q :: q in protected && q.mac in AllMacs(texts[j])) ==>
                  MatchParameters(protected, parameters).value.matchedValue == FormatMac(p.mac))
  {
    i := FirstParameter(protected, parameters);
    var c := parameters[i];
    var texts := Scannable(c.value);
    j := FirstText(protected, c.key, texts);
    forall h, q | 0 <= h < i && q in protected ensures !NamedIn(parameters[h], q) {
      MatchConstraintExact(protected, parameters[h]);
    }
    forall h, q | 0 <= h < j && q in protected ensures !Names(texts[h], q) {
      MatchTextExact(protected, c.key, texts[h]);
    }
    p := WhoIsReported(protected, c.key, texts[j]);
  }

  lemma WhoIsReported(protected: seq<ProtectedResource>, key: string, text: string) returns (p: ProtectedResource)
    requires MatchText(protected, key, text).Some?
    ensures p in protected && Reports(MatchText(protected, key, text).value, p, text)
    ensures MatchText(protected, key, text).value.parameterKey == key
    ensures (exists q :: q in protected && q.mac in AllMacs(text)) ==>
              MatchText(protected, key, text).value.matchedValue == FormatMac(p.mac)
  {
    MatchMacsExact(protected, key, AllMacs(text));
    MatchIpsExact(protected, key, Ips(text));
    var m := MatchText(protected, key, text).value;
    if MatchMacs(protected, key, AllMacs(text)).Some? {
      p :| p in protected && p.mac in AllMacs(text) && Describes(m, p) && m.matchedValue == FormatMac(p.mac);
    } else {
      p :| p in protected && p.ip == Some(m.matchedValue) && m.matchedValue in Ips(text) && Describes(m, p);
    }
  }

  /** The strings of a parameter that are looked at: a text, or every value of a choice. */
  lemma ScannableIs(v: ConstraintValue, t: string)
    ensures t in Scannable(v) <==> v == Text(t) || (v.OneOf? && t in v.values)
  {
  }

  /** `text` itself spells `mac` with colons and no upper-case digit. */
  ghost predicate WrittenNormalised(text: string, mac: Mac) {
    exists k: nat :: MacAt(text, k) && ValueAt(text, k) == mac && NormalWindow(text[k..k + WINDOW])
  }

  predicate NormalWindow(w: string)
    requires |w| == WINDOW
  {
    w[2] == ':' && forall c :: c in w ==> !IsUpperHex(c)
  }

  lemma NormalisedOccursIff(text: string, mac: Mac)
    ensures Contains(text, FormatMac(mac)) <==> WrittenNormalised(text, mac)
  {
    FormatParses(mac);
    FormatColons(mac);
    NormalisedIff(FormatMac(mac));
    if Contains(text, FormatMac(mac)) {
      var k :| 0 <= k <= |text| && StartsAt(text, k, FormatMac(mac));
      assert MacAt(text, k) && ValueAt(text, k) == mac;
    }
    if WrittenNormalised(text, mac) {
      var k: nat :| MacAt(text, k) && ValueAt(text, k) == mac && NormalWindow(text[k..k + WINDOW]);
      NormalisedIff(text[k..k + WINDOW]);
      assert StartsAt(text, k, FormatMac(mac));
    }
  }

  lemma IpOccurs(text: string, ip: string)
    requires ip in Ips(text)
    ensures Contains(text, ip)
  {
    IpsExact(text, ip);
    var i: nat, j: nat :| TokenAt(text, i, j) && text[i..j] == ip;
    assert StartsAt(text, i, ip);
  }

  /** The value a match reports occurs in the text that triggered it exactly when it is
      an IP address found there, or that text, as it was written, spells the MAC with colons and no
      upper-case digit. */
  lemma ReportedAsWrittenIff(protected: seq<ProtectedResource>, parameters: seq<Constraint>)
    returns (c: Constraint, text: string, p: ProtectedResource)
    requires MatchParameters(protected, parameters).Some?
    ensures c in parameters && text in Scannable(c.value) && p in protected
    ensures var m := MatchParameters(protected, parameters).value;
            && m.parameterKey == c.key && Reports(m, p, text)
            && (Contains(text, m.matchedValue) <==> m.matchedValue in Ips(text) || WrittenNormalised(text, p.mac))
  {
    c, text, p := MatchIsReported(protected, parameters);
    var m := MatchParameters(protected, parameters).value;
    NormalisedOccursIff(text, p.mac);
    if m.matchedValue in Ips(text) {
      IpOccurs(text, m.matchedValue);
    }
  }

  /** Where the scan from `i` first reports a protected MAC. */
  function FirstProtected(protected: seq<ProtectedResource>, s: string, i: nat): (r: Option<nat>)
    ensures r.Some? ==> MacAt(s, r.value) && FindByMac(protected, ValueAt(s, r.value)).Some?
    decreases |s| - i
  {
    if i + WINDOW > |s| then None
    else if !MacAt(s, i) then FirstProtected(protected, s, i + 1)
    else if FindByMac(protected, ValueAt(s, i)).Some? then Some(i)
    else FirstProtected(protected, s, i + WINDOW)
  }

  lemma {:induction false} MatchIsFirst(protected: seq<ProtectedResource>, key: string, s: string, i: nat)
    ensures var k := FirstProtected(protected, s, i);
            MatchMacs(protected, key, MacsFrom(s, i)) ==
            if k.None? then None
            else Some(Matched(FindByMac(protected, ValueAt(s, k.value)).value, FormatMac(ValueAt(s, k.value)), key))
    decreases |s| - i
  {
    if i + WINDOW <= |s| {
      if MacAt(s, i) {
        MatchIsFirst(protected, key, s, i + WINDOW);
      } else {
        MatchIsFirst(protected, key, s, i + 1);
      }
    }
  }

  lemma {:induction false} MatchAppend(protected: seq<ProtectedResource>, key: string, a: seq<Mac>, b: seq<Mac>)
    ensures MatchMacs(protected, key, a + b) ==
            if MatchMacs(protected, key, a).Some? then MatchMacs(protected, key, a) else MatchMacs(protected, key, b)
  {
    if a == [] {
      assert a + b == b;
    } else {
      assert (a + b)[1..] == a[1..] + b;
      MatchAppend(protected, key, a[1..], b);
    }
  }

  /** If the scan of the text itself finds a protected MAC, the first one triggers the
      match, and what is reported is what was written there exactly when that has colons
      and no upper-case digit. */
  lemma TriggerShownIff(protected: seq<ProtectedResource>, key: string, text: string, k: nat)
    requires FirstProtected(protected, text, 0) == Some(k)
    ensures var m := MatchText(protected, key, text);
            m.Some? && (m.value.matchedValue == text[k..k + WINDOW] <==> NormalWindow(text[k..k + WINDOW]))
  {
    MatchIsFirst(protected, key, text, 0);
    MatchAppend(protected, key, Macs(text), Macs(Stripped(text)));
    NormalisedIff(text[k..k + WINDOW]);
  }

  /** A protected MAC in either separator and any case, with whitespace
      anywhere in it, after text free of separators, is always caught. */
  lemma SpelledMacCaught(protected: seq<ProtectedResource>, parameters: seq<Constraint>, c: Constraint,
                         text: string, before: string, w: string, after: string, p: ProtectedResource)
    requires c in parameters && text in Scannable(c.value) && p in protected
    requires Stripped(text) == before + w + after
    requires |w| == WINDOW && MacOf(w) == Some(p.mac)
    requires forall x :: x in before ==> !IsSeparator(x)
    ensures MatchParameters(protected, parameters).Some?
  {
    SpelledMacFound(text, before, w, after);
    assert Names(text, p);
    assert NamedIn(c, p);
    MatchParametersExact(protected, parameters);
  }

  /** `text`, or `text` without its whitespace, spells `mac` at `k`. */
  predicate SpelledAt(text: string, t: string, k: nat, mac: Mac) {
    (t == text || t == Stripped(text)) && MacAt(t, k) && ValueAt(t, k) == mac
  }

  /** A spelling that no earlier MAC-shaped window overlaps is always caught. */
  lemma IsolatedMacCaught(protected: seq<ProtectedResource>, parameters: seq<Constraint>, c: Constraint,
                          text: string, t: string, k: nat, p: ProtectedResource)
    requires c in parameters && text in Scannable(c.value) && p in protected
    requires SpelledAt(text, t, k, p.mac) && Isolated(t, k)
    ensures MatchParameters(protected, parameters).Some?
  {
    IsolatedMacFound(text, t, k);
    assert Names(text, p);
    assert NamedIn(c, p);
    MatchParametersExact(protected, parameters);
  }

  /** If no two MAC-shaped windows overlap in the text or in the text without its
      whitespace, every protected MAC it spells is caught, wherever it stands. */
  lemma EverySpelledMacCaught(protected: seq<ProtectedResource>, parameters: seq<Constraint>, c: Constraint,
                              text: string, t: string, k: nat, p: ProtectedResource)
    requires c in parameters && text in Scannable(c.value) && p in protected
    requires NoOverlap(text) && NoOverlap(Stripped(text)) && SpelledAt(text, t, k, p.mac)
    ensures MatchParameters(protected, parameters).Some?
  {
    assert Isolated(t, k);
    IsolatedMacCaught(protected, parameters, c, text, t, k, p);
  }

  /** Where two windows overlap, a protected MAC can pass: the text spells it at 3
      and no match is returned. */
  lemma OverlappedMacPasses(p: ProtectedResource, key: string)
    requires p.mac == [0x11, 0x22, 0x33, 0x44, 0x55, 0x66] && p.ip.None?
    ensures SpelledAt(SEVEN_OCTETS, SEVEN_OCTETS, 3, p.mac)
    ensures MatchParameters([p], [Constraint(key, Text(SEVEN_OCTETS))]).None?
  {
    var s := SEVEN_OCTETS;
    OverlapIsMissed();
    SevenOctetValues();
    StrippedSame(s);
    MacsAreAtHits(s, 0, p.mac);
    assert p.mac !in AllMacs(s);
    MatchParametersExact([p], [Constraint(key, Text(s))]);
    forall c, q | c in [Constraint(key, Text(s))] && q in [p] ensures !NamedIn(c, q) {
      assert c == Constraint(key, Text(s)) && q == p;
    }
  }

  lemma SevenOctetValues()
    ensures forall c :: c in SEVEN_OCTETS ==> !IsWhitespace(c)
    ensures MacAt(SEVEN_OCTETS, 0) && ValueAt(SEVEN_OCTETS, 0)[0] == 0
    ensures MacAt(SEVEN_OCTETS, 3) && ValueAt(SEVEN_OCTETS, 3) == [0x11, 0x22, 0x33, 0x44, 0x55, 0x66]
  {
    OverlapIsMissed();
    var s := SEVEN_OCTETS;
    assert s[0..17] == "00:11:22:" + "33:44:55";
    assert s[3..20] == "11:22:" + "33:44:55:" + "66";
  }

  /** A normalised MAC does not occur in text without colons. */
  lemma NormalisedNeedsColon(text: string, mac: Mac)
    requires ':' !in text
    ensures !Contains(text, FormatMac(mac))
  {
    FormatColons(mac);
    forall k | 0 <= k <= |text| ensures !StartsAt(text, k, FormatMac(mac)) {
      assert k + WINDOW <= |text| ==> text[k..k + WINDOW][2] == text[k + 2] && text[k + 2] in text;
    }
  }

  lemma OnlyWindow(text: string)
    requires |text| == WINDOW && MacShaped(text) && forall c :: c in text ==> !IsWhitespace(c)
    ensures AllMacs(text) == [MacOf(text).value]
  {
    StrippedSame(text);
    assert text[0..WINDOW] == text;
    assert MacsFrom(text, WINDOW) == [];
    assert MacsFrom(text, 0) == [ValueAt(text, 0)] + MacsFrom(text, WINDOW);
  }

  lemma SingleMatch(p: ProtectedResource, c: Constraint, text: string)
    requires c.value == Text(text) && AllMacs(text) == [p.mac]
    ensures MatchParameters([p], [c]) == Some(Matched(p, FormatMac(p.mac), c.key))
  {
    assert MatchMacs([p], c.key, [p.mac]) == Some(Matched(p, FormatMac(p.mac), c.key));
    assert MatchTexts([p], c.key, [text]) == Some(Matched(p, FormatMac(p.mac), c.key));
  }

  /** A protected MAC in upper case with hyphens is reported in a form that occurs
      nowhere in the text. */
  lemma ReportedTextNeedNotOccur(p: ProtectedResource, key: string)
    requires p.mac == [0xAA, 0xBB, 0xCC, 0x11, 0x22, 0x01]
    ensures var text := "AA-BB-CC" + "-11-22-01";
            var m := MatchParameters([p], [Constraint(key, Text(text))]);
            m.Some? && !Contains(text, m.value.matchedValue)
  {
    var text := "AA-BB-CC" + "-11-22-01";
    UpperCaseText(text);
    OnlyWindow(text);
    SingleMatch(p, Constraint(key, Text(text)), text);
    NormalisedNeedsColon(text, p.mac);
  }

  /** `w` with a space before position `j`. */
  function Spaced(w: string, j: nat): string
    requires j <= |w|
  {
    w[..j] + [' '] + w[j..]
  }

  lemma SpacedDoesNotContain(w: string, j: nat)
    requires |w| == WINDOW && 0 < j < WINDOW && ' ' !in w
    ensures !Contains(Spaced(w, j), w)
  {
    var text := Spaced(w, j);
    forall k | 0 <= k <= |text| ensures !StartsAt(text, k, w) {
      assert k + WINDOW <= |text| ==> text[k..k + WINDOW][j - k] == ' ';
    }
  }

  lemma SpacedFound(w: string, j: nat)
    requires |w| == WINDOW && MacShaped(w) && 0 < j < WINDOW
    ensures AllMacs(Spaced(w, j)) == [MacOf(w).value]
  {
    NoSpaceInMac(w);
    assert w[..j] + w[j..] == w;
    StrippedGap(w[..j], ' ', w[j..]);
    OnlySpacedWindow(Spaced(w, j), w, j);
  }

  /** Any MAC with a space anywhere in it is found, and reported without the space, so in
      a form that does not occur in the text although it has colons and no upper case. */
  lemma SpacedMacIsNotShown(p: ProtectedResource, key: string, j: nat)
    requires 0 < j < WINDOW
    ensures var w := FormatMac(p.mac);
            var m := MatchParameters([p], [Constraint(key, Text(Spaced(w, j)))]);
            NormalWindow(w) && m.Some? && m.value.matchedValue == w && !Contains(Spaced(w, j), w)
  {
    var w := FormatMac(p.mac);
    FormatParses(p.mac);
    assert NormalWindow(w) by {
      FormatColons(p.mac);
      NormalisedIff(w);
    }
    assert !Contains(Spaced(w, j), w) by {
      NoSpaceInMac(w);
      SpacedDoesNotContain(w, j);
    }
    SpacedFound(w, j);
    SingleMatch(p, Constraint(key, Text(Spaced(w, j))), Spaced(w, j));
  }

  lemma NoSpaceInMac(w: string)
    requires |w| == WINDOW && MacShaped(w)
    ensures forall c :: c in w ==> !IsWhitespace(c)
  {
    forall i | 0 <= i < |w| ensures !IsWhitespace(w[i]) {
      assert i % 3 == 2 ==> IsSeparator(w[i]);
      assert i % 3 < 2 ==> OctetAt(w, i / 3);
    }
  }

  lemma {:induction false} StrippedGap(a: string, space: char, b: string)
    requires IsWhitespace(space) && forall c :: c in a + b ==> !IsWhitespace(c)
    ensures Stripped(a + [space] + b) == a + b
  {
    var s := a + [space] + b;
    if a == [] {
      assert s[1..] == b && a + b == b;
      StrippedSame(b);
    } else {
      assert a[0] in a + b;
      assert s[1..] == a[1..] + [space] + b;
      assert forall c :: c in a[1..] + b ==> c in a + b;
      StrippedGap(a[1..], space, b);
    }
  }

  lemma OnlySpacedWindow(text: string, w: string, j: nat)
    requires |w| == WINDOW && MacShaped(w) && 0 < j < WINDOW && text == w[..j] + [' '] + w[j..] && Stripped(text) == w
    ensures AllMacs(text) == [MacOf(w).value]
  {
    forall k: nat ensures !MacAt(text, k) {
      if MacAt(text, k) {
        NoSpaceInMac(text[k..k + WINDOW]);
      }
    }
    assert Macs(text) == [] by {
      NoHits(text, 0);
    }
    NoSpaceInMac(w);
    OnlyWindow(w);
    StrippedSame(w);
  }

  lemma {:induction false} NoHits(s: string, i: nat)
    requires forall k: nat :: !MacAt(s, k)
    ensures MacsFrom(s, i) == []
    decreases |s| - i
  {
    if i < |s| {
      NoHits(s, i + 1);
    }
  }

  lemma UpperCaseText(text: string)
    requires text == "AA-BB-CC" + "-11-22-01"
    ensures |text| == WINDOW && MacShaped(text) && text[2] == '-'
    ensures MacOf(text) == Some([0xAA, 0xBB, 0xCC, 0x11, 0x22, 0x01])
    ensures forall c :: c in text ==> !IsWhitespace(c) && c != ':'
  {
  }

  // ---------------------------------------------------------------------
  // The loops.

  method FindProtectedMatch(protected: seq<ProtectedResource>, parameters: seq<Constraint>)
    returns (r: Option<ProtectedMatch>)
    ensures r == MatchParameters(protected, parameters)
  {
    if protected == [] {
      MatchParametersExact(protected, parameters);
      return None;
    }
    for i := 0 to |parameters|
      invariant MatchParameters(protected, parameters) == MatchParameters(protected, parameters[i..])
    {
      var texts := Scannable(parameters[i].value);
      var m := FindInTexts(protected, parameters[i].key, texts);
      if m.Some? {
        return m;
      }
    }
    return None;
  }

  method FindInTexts(protected: seq<ProtectedResource>, key: string, texts: seq<string>)
    returns (r: Option<ProtectedMatch>)
    ensures r == MatchTexts(protected, key, texts)
  {
    for i := 0 to |texts|
      invariant MatchTexts(protected, key, texts) == MatchTexts(protected, key, texts[i..])
    {
      var m := FindInText(protected, key, texts[i]);
      if m.Some? {
        return m;
      }
    }
    return None;
  }

  method FindInText(protected: seq<ProtectedResource>, key: string, text: string)
    returns (r: Option<ProtectedMatch>)
    ensures r == MatchText(protected, key, text)
  {
    var macs := ScanIncludingWhitespaceObfuscated(text);
    for i := 0 to |macs|
      invariant MatchMacs(protected, key, macs) == MatchMacs(protected, key, macs[i..])
    {
      var p := FindByMac(protected, macs[i]);
      if p.Some? {
        return Some(Matched(p.value, FormatMac(macs[i]), key));
      }
    }
    assert macs[|macs|..] == [];
    var ips := ScanIpv4Candidates(text);
    for i := 0 to |ips|
      invariant MatchIps(protected, key, ips) == MatchIps(protected, key, ips[i..])
    {
      var p := FindByIp(protected, ips[i]);
      if p.Some? {
        return Some(Matched(p.value, ips[i], key));
      }
    }
    return None;
  }

  // ---------------------------------------------------------------------
  // Denied substrings. `lower` stands for Unicode lower-casing.

  predicate StartsAt(s: string, k: nat, pattern: string) {
    k + |pattern| <= |s| && s[k..k + |pattern|] == pattern
  }

  predicate Contains(s: string, pattern: string) {
    exists k :: 0 <= k <= |s| && StartsAt(s, k, pattern)
  }

  function FirstContained(s: string, patterns: seq<string>): (r: Option<string>)
    ensures r.Some? <==> exists p :: p in patterns && Contains(s, p)
    ensures r.Some? ==> r.value in patterns && Contains(s, r.value)
  {
    if patterns == [] then None
    else if Contains(s, patterns[0]) then Some(patterns[0])
    else FirstContained(s, patterns[1..])
  }

  function DeniedText(lower: string -> string, patterns: seq<string>, texts: seq<string>): (r: Option<string>)
    ensures r.Some? <==> exists t, p :: t in texts && p in patterns && Contains(lower(t), p)
    ensures r.Some? ==> r.value in patterns
  {
    if texts == [] then None
    else
      var p := FirstContained(lower(texts[0]), patterns);
      if p.Some? then p else DeniedText(lower, patterns, texts[1..])
  }

  function DeniedParameter(lower: string -> string, patterns: seq<string>, capability: string,
                           parameters: seq<Constraint>): (r: Option<DeniedMatch>)
    ensures r.Some? <==>
            exists c, t, p :: c in parameters && t in Scannable(c.value) && p in patterns && Contains(lower(t), p)
  {
    if parameters == [] then None
    else
      var p := DeniedText(lower, patterns, Scannable(parameters[0].value));
      if p.Some? then Some(DeniedMatch(parameters[0].key, p.value, capability))
      else DeniedParameter(lower, patterns, capability, parameters[1..])
  }

  function CheckDenied(screen: Screen, lower: string -> string, capability: string,
                       parameters: seq<Constraint>): Option<DeniedMatch>
  {
    if capability in screen.denied then DeniedParameter(lower, screen.denied[capability], capability, parameters)
    else None
  }

  /** The three checks every proposal passes first, in their order. */
  function Rejection(screen: Screen, lower: string -> string, capability: string,
                     parameters: seq<Constraint>): Option<ProposeError>
  {
    if screen.protected.None? then Some(ProtectedResourceSectionMissing)
    else
      var m := MatchParameters(screen.protected.value, parameters);
      if m.Some? then Some(TargetsProtectedResource(m.value))
      else
        var d := CheckDenied(screen, lower, capability, parameters);
        if d.Some? then Some(ArgumentConstraintViolation(d.value)) else None
  }

  /** A proposal passes exactly when the section exists, no parameter names a
      protected device and none contains a pattern denied to the capability. */
  lemma PassesIff(screen: Screen, lower: string -> string, capability: string, parameters: seq<Constraint>)
    ensures Rejection(screen, lower, capability, parameters).None? <==>
            && screen.protected.Some?
            && (forall c, p :: c in parameters && p in screen.protected.value ==> !NamedIn(c, p))
            && (capability in screen.denied ==>
                  forall c, t, p :: c in parameters && t in Scannable(c.value) && p in screen.denied[capability]
                    ==> !Contains(lower(t), p))
  {
    if screen.protected.Some? {
      MatchParametersExact(screen.protected.value, parameters);
    }
  }

  lemma {:induction false} DenialIsFirst(lower: string -> string, patterns: seq<string>, capability: string,
                                         parameters: seq<Constraint>) returns (i: nat)
    requires DeniedParameter(lower, patterns, capability, parameters).Some?
    ensures i < |parameters|
    ensures var d := DeniedParameter(lower, patterns, capability, parameters).value;
            && d.parameterKey == parameters[i].key && d.capability == capability && d.pattern in patterns
            && exists t :: t in Scannable(parameters[i].value) && Contains(lower(t), d.pattern)
    ensures forall h, t, p :: 0 <= h < i && t in Scannable(parameters[h].value) && p in patterns ==>
              !Contains(lower(t), p)
  {
    var p := DeniedText(lower, patterns, Scannable(parameters[0].value));
    if p.Some? {
      i := 0;
      DeniedTextContains(lower, patterns, Scannable(parameters[0].value));
    } else {
      i := DenialIsFirst(lower, patterns, capability, parameters[1..]);
      i := i + 1;
    }
  }

  lemma {:induction false} DeniedTextContains(lower: string -> string, patterns: seq<string>, texts: seq<string>)
    requires DeniedText(lower, patterns, texts).Some?
    ensures exists t :: t in texts && Contains(lower(t), DeniedText(lower, patterns, texts).value)
  {
    if FirstContained(lower(texts[0]), patterns).Some? {
      assert texts[0] in texts;
    } else {
      DeniedTextContains(lower, patterns, texts[1..]);
      var t :| t in texts[1..] && Contains(lower(t), DeniedText(lower, patterns, texts[1..]).value);
      assert t in texts;
    }
  }

  /** Why a proposal is rejected, in the order of the checks: no section, then the first
      protected device named, then the first denied pattern in the capability's list. */
  lemma RejectionExact(screen: Screen, lower: string -> string, capability: string, parameters: seq<Constraint>)
    ensures match Rejection(screen, lower, capability, parameters)
            case None => true
            case Some(ProtectedResourceSectionMissing) => screen.protected.None?
            case Some(TargetsProtectedResource(m)) =>
              && screen.protected.Some? && MatchParameters(screen.protected.value, parameters) == Some(m)
              && exists c, p :: c in parameters && p in screen.protected.value && NamedIn(c, p)
            case Some(ArgumentConstraintViolation(d)) =>
              && screen.protected.Some? && capability in screen.denied
              && (forall c, p :: c in parameters && p in screen.protected.value ==> !NamedIn(c, p))
              && DeniedParameter(lower, screen.denied[capability], capability, parameters) == Some(d)
  {
    if screen.protected.Some? {
      MatchParametersExact(screen.protected.value, parameters);
    }
  }
}
