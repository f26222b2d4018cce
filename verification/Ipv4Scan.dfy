/** The scanner for dotted-quad addresses in untrusted text. */
module Ipv4Scan {

  predicate IsDigit(c: char) {
    '0' <= c <= '9'
  }

  predicate IsRunChar(c: char) {
    IsDigit(c) || c == '.'
  }

  /** The parts of `s` between its dots. */
  function Parts(s: string): (r: seq<string>)
    ensures |r| > 0
  {
    if s == [] then [[]]
    else
      var rest := Parts(s[1..]);
      if s[0] == '.' then [[]] + rest else [[s[0]] + rest[0]] + rest[1..]
  }

  function Decimal(s: string): nat
    requires forall c :: c in s ==> IsDigit(c)
  {
    if s == [] then 0
    else
      assert IsDigit(s[|s| - 1]);
      Decimal(s[..|s| - 1]) * 10 + (s[|s| - 1] as int - '0' as int)
  }

  predicate IsOctet(p: string) {
    1 <= |p| <= 3 && (forall c :: c in p ==> IsDigit(c)) && Decimal(p) <= 255
  }

  /** Four decimal octets. */
  predicate Ipv4Shaped(s: string) {
    var parts := Parts(s);
    |parts| == 4 && IsOctet(parts[0]) && IsOctet(parts[1]) && IsOctet(parts[2]) && IsOctet(parts[3])
  }

  /** The end of the run of digits and dots starting at `i`. */
  function RunEnd(s: string, i: nat): (j: nat)
    requires i <= |s|
    ensures i <= j <= |s|
    ensures forall k :: i <= k < j ==> IsRunChar(s[k])
    ensures j == |s| || !IsRunChar(s[j])
    decreases |s| - i
  {
    if i < |s| && IsRunChar(s[i]) then RunEnd(s, i + 1) else i
  }

  /** The tokens the scan starting at `i` looks at. */
  function Tokens(s: string, i: nat): seq<(nat, nat)>
    requires i <= |s|
    decreases |s| - i
  {
    if i == |s| then []
    else if IsDigit(s[i]) then
      assert RunEnd(s, i) == RunEnd(s, i + 1);
      [(i, RunEnd(s, i))] + Tokens(s, RunEnd(s, i))
    else Tokens(s, i + 1)
  }

  /** Going left from `i`, dots lead to the start or to neither a dot nor a digit. */
  predicate Unattached(s: string, i: nat)
    requires i <= |s|
  {
    i == 0 || (if s[i - 1] == '.' then Unattached(s, i - 1) else !IsDigit(s[i - 1]))
  }

  /** A run of digits and dots that starts with its first digit and cannot be extended. */
  predicate TokenAt(s: string, i: nat, j: nat) {
    && i < j <= |s|
    && IsDigit(s[i])
    && Unattached(s, i)
    && (forall k :: i <= k < j ==> IsRunChar(s[k]))
    && (j == |s| || !IsRunChar(s[j]))
  }

  lemma {:induction false} AttachedToDigit(s: string, p: nat, i: nat)
    requires p < i <= |s| && IsDigit(s[p])
    requires forall k :: p <= k < i ==> IsRunChar(s[k])
    ensures !Unattached(s, i)
  {
    if s[i - 1] == '.' {
      AttachedToDigit(s, p, i - 1);
    }
  }

  /** The scan looks at exactly the tokens of the text. */
  lemma {:induction false} TokensExact(s: string, p: nat, i: nat, j: nat)
    requires p <= |s|
    requires p == |s| || Unattached(s, p) || !IsRunChar(s[p])
    ensures (i, j) in Tokens(s, p) <==> p <= i && TokenAt(s, i, j)
    decreases |s| - p
  {
    if p < |s| {
      if IsDigit(s[p]) {
        var e := RunEnd(s, p);
        assert e == RunEnd(s, p + 1);
        TokensExact(s, e, i, j);
        if p < i < e {
          AttachedToDigit(s, p, i);
        }
      } else {
        TokensExact(s, p + 1, i, j);
      }
    }
  }

  /** What the scan starting at `i` reports. */
  function IpsFrom(s: string, i: nat): seq<string>
    requires i <= |s|
    decreases |s| - i
  {
    if i == |s| then []
    else if IsDigit(s[i]) then
      var j := RunEnd(s, i);
      assert j == RunEnd(s, i + 1);
      (if Ipv4Shaped(s[i..j]) then [s[i..j]] else []) + IpsFrom(s, j)
    else IpsFrom(s, i + 1)
  }

  function Ips(s: string): seq<string> {
    IpsFrom(s, 0)
  }

  method ScanIpv4Candidates(s: string) returns (found: seq<string>)
    ensures found == Ips(s)
  {
    found := [];
    var i := 0;
    while i < |s|
      invariant i <= |s|
      invariant Ips(s) == found + IpsFrom(s, i)
    {
      if IsDigit(s[i]) {
        var j := i;
        while j < |s| && IsRunChar(s[j])
          invariant i <= j <= |s|
          invariant RunEnd(s, j) == RunEnd(s, i)
        {
          j := j + 1;
        }
        assert RunEnd(s, i) == RunEnd(s, i + 1) > i;
        var token := s[i..j];
        if Ipv4Shaped(token) {
          found := found + [token];
        }
        i := j;
      } else {
        i := i + 1;
      }
    }
  }

  lemma {:induction false} IpsAreTokens(s: string, p: nat, ip: string)
    requires p <= |s|
    ensures ip in IpsFrom(s, p) <==>
            Ipv4Shaped(ip) && exists i, j :: (i, j) in Tokens(s, p) && i <= j <= |s| && s[i..j] == ip
    decreases |s| - p
  {
    if p < |s| {
      if IsDigit(s[p]) {
        var e := RunEnd(s, p);
        assert e == RunEnd(s, p + 1);
        IpsAreTokens(s, e, ip);
        assert (p, e) in Tokens(s, p);
        assert forall t :: t in Tokens(s, p) <==> t == (p, e) || t in Tokens(s, e);
      } else {
        IpsAreTokens(s, p + 1, ip);
      }
    }
  }

  /** An address is reported exactly when it is a whole token of the text. */
  lemma IpsExact(s: string, ip: string)
    ensures ip in Ips(s) <==> Ipv4Shaped(ip) && exists i: nat, j: nat :: TokenAt(s, i, j) && s[i..j] == ip
  {
    IpsAreTokens(s, 0, ip);
    forall i: nat, j: nat ensures (i, j) in Tokens(s, 0) <==> TokenAt(s, i, j) {
      TokensExact(s, 0, i, j);
    }
  }

  lemma {:induction false} PartsOfRun(s: string)
    requires forall p :: p in Parts(s) ==> forall c :: c in p ==> IsDigit(c)
    ensures forall c :: c in s ==> IsRunChar(c)
  {
    if s != [] {
      var rest := Parts(s[1..]);
      assert forall p :: p in Parts(s[1..]) ==> forall c :: c in p ==> IsDigit(c) by {
        if s[0] == '.' {
          assert forall p :: p in rest ==> p in Parts(s);
        } else {
          assert Parts(s)[0] == [s[0]] + rest[0] && Parts(s)[0] in Parts(s);
          assert s[0] in Parts(s)[0];
          assert forall p :: p in rest[1..] ==> p in Parts(s);
          assert rest == [rest[0]] + rest[1..];
        }
      }
      PartsOfRun(s[1..]);
      assert IsRunChar(s[0]) by {
        assert s[0] != '.' ==> Parts(s)[0][0] == s[0] && Parts(s)[0] in Parts(s);
      }
      assert s == [s[0]] + s[1..];
    }
  }

  /** A full stop right after an address hides it. */
  lemma TrailingDotIsMissed(ip: string)
    requires Ipv4Shaped(ip)
    ensures ip !in Ips(ip + ".")
  {
    var s := ip + ".";
    IpsExact(s, ip);
    assert forall p :: p in Parts(ip) ==> IsOctet(p);
    PartsOfRun(ip);
    StartsWithDigit(ip);
    assert IsDigit(s[0]) && !Unattached(s, 1);
    forall i: nat, j: nat | TokenAt(s, i, j) ensures s[i..j] != ip {
      assert j == |s| && i != 1;
      assert |s[i..j]| == |s| - i;
    }
  }

  lemma StartsWithDigit(ip: string)
    requires Ipv4Shaped(ip)
    ensures ip != [] && IsDigit(ip[0])
  {
    assert Parts(ip)[0] != [];
    assert Parts(ip)[0][0] == ip[0];
  }

  // What the shape is, without the parser.

  predicate Digits(s: string) {
    forall i :: 0 <= i < |s| ==> '0' <= s[i] <= '9'
  }

  /** One to three digits that read as at most 255. */
  predicate OctetText(s: string) {
    && 1 <= |s| <= 3 && Digits(s)
    && (|s| == 3 ==> (s[0] as int - 48) * 100 + (s[1] as int - 48) * 10 + (s[2] as int - 48) <= 255)
  }

  lemma OctetIff(s: string)
    ensures IsOctet(s) <==> OctetText(s)
  {
    if 1 <= |s| <= 3 {
      assert forall i :: 0 <= i < |s| ==> s[i] in s;
      if Digits(s) {
        DecimalOf(s);
      }
    }
  }

  lemma DecimalOf(s: string)
    requires 1 <= |s| <= 3 && Digits(s)
    ensures forall c :: c in s ==> IsDigit(c)
    ensures |s| <= 2 ==> Decimal(s) <= 99
    ensures |s| == 3 ==> Decimal(s) == (s[0] as int - 48) * 100 + (s[1] as int - 48) * 10 + (s[2] as int - 48)
  {
    var a := s[..|s| - 1];
    assert s[..1] == [s[0]] && [s[0]][..0] == [];
    assert Decimal([s[0]]) == s[0] as int - 48;
    if |s| >= 2 {
      assert s[..2][..1] == [s[0]];
      assert Decimal(s[..2]) == (s[0] as int - 48) * 10 + (s[1] as int - 48);
      assert |s| == 2 ==> s[..2] == s;
    } else {
      assert s == [s[0]];
    }
  }

  predicate NoDot(s: string) {
    forall i :: 0 <= i < |s| ==> s[i] != '.'
  }

  lemma {:induction false} PartsOfOne(a: string)
    requires NoDot(a)
    ensures Parts(a) == [a]
  {
    if a != [] {
      PartsOfOne(a[1..]);
      assert [a[0]] + a[1..] == a;
    }
  }

  lemma {:induction false} PartsOfDotted(a: string, rest: string)
    requires NoDot(a)
    ensures Parts(a + (['.'] + rest)) == [a] + Parts(rest)
  {
    var s := a + (['.'] + rest);
    if a == [] {
      assert s == ['.'] + rest && s[1..] == rest;
    } else {
      assert s[1..] == a[1..] + (['.'] + rest);
      PartsOfDotted(a[1..], rest);
      assert [a[0]] + a[1..] == a;
    }
  }

  lemma {:induction false} PartsRejoin(s: string)
    ensures var p := Parts(s);
            && (forall i :: 0 <= i < |p| ==> NoDot(p[i]))
            && (|p| == 1 ==> s == p[0])
            && (|p| > 1 ==> exists rest :: s == p[0] + (['.'] + rest) && Parts(rest) == p[1..])
  {
    if s != [] {
      var p, q := Parts(s), Parts(s[1..]);
      PartsRejoin(s[1..]);
      if s[0] == '.' {
        assert s == p[0] + (['.'] + s[1..]) && p[1..] == q;
      } else {
        if |q| == 1 {
          assert s == [s[0]] + s[1..];
        } else {
          var rest :| s[1..] == q[0] + (['.'] + rest) && Parts(rest) == q[1..];
          assert s == [s[0]] + s[1..];
          assert s == p[0] + (['.'] + rest);
        }
      }
    }
  }

  /** Four octets joined by dots, and nothing else, is IPv4-shaped. */
  lemma ShapeIff(s: string)
    ensures Ipv4Shaped(s) <==>
            exists a, b, c, d :: OctetText(a) && OctetText(b) && OctetText(c) && OctetText(d)
                                 && s == a + (['.'] + (b + (['.'] + (c + (['.'] + d)))))
  {
    if exists a, b, c, d :: OctetText(a) && OctetText(b) && OctetText(c) && OctetText(d)
                            && s == a + (['.'] + (b + (['.'] + (c + (['.'] + d)))))
    {
      var a, b, c, d :| OctetText(a) && OctetText(b) && OctetText(c) && OctetText(d)
                        && s == a + (['.'] + (b + (['.'] + (c + (['.'] + d)))));
      ShapedIf(a, b, c, d);
    }
    if Ipv4Shaped(s) {
      var a, b, c, d := ShapeParts(s);
    }
  }

  lemma ShapedIf(a: string, b: string, c: string, d: string)
    requires OctetText(a) && OctetText(b) && OctetText(c) && OctetText(d)
    ensures Ipv4Shaped(a + (['.'] + (b + (['.'] + (c + (['.'] + d))))))
  {
    OctetIff(a);
    OctetIff(b);
    OctetIff(c);
    OctetIff(d);
    PartsOfOne(d);
    PartsOfDotted(c, d);
    PartsOfDotted(b, c + (['.'] + d));
    PartsOfDotted(a, b + (['.'] + (c + (['.'] + d))));
  }

  lemma ShapeParts(s: string) returns (a: string, b: string, c: string, d: string)
    requires Ipv4Shaped(s)
    ensures OctetText(a) && OctetText(b) && OctetText(c) && OctetText(d)
    ensures s == a + (['.'] + (b + (['.'] + (c + (['.'] + d)))))
  {
    var p := Parts(s);
    a, b, c, d := p[0], p[1], p[2], p[3];
    OctetIff(a);
    OctetIff(b);
    OctetIff(c);
    OctetIff(d);
    PartsRejoin(s);
    var x :| s == a + (['.'] + x) && Parts(x) == p[1..];
    PartsRejoin(x);
    var y :| x == b + (['.'] + y) && Parts(y) == p[1..][1..];
    PartsRejoin(y);
    var z :| y == c + (['.'] + z) && Parts(z) == p[1..][1..][1..];
    PartsRejoin(z);
  }
}
