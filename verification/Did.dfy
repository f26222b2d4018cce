/** DID text: the parser and printer of `did:<method>:<identifier>` URLs with
    optional path, query and fragment (section 3.2 of W3C DID Core 1.0), and
    the keys such text carries. */
module Did {
  import opened Prelude
  import Base58

  datatype Method = Axiom | Web | Key

  datatype DidError = InvalidFormat | UnsupportedMethod

  datatype Did = Did(
    didMethod: Method,
    identifier: string,
    path: Option<string>,
    query: Option<string>,
    fragment: Option<string>)

  function MethodText(m: Method): string {
    match m
    case Axiom => "axiom"
    case Web => "web"
    case Key => "key"
  }

  function MethodOf(s: string): (m: Option<Method>)
    ensures m.Some? ==> MethodText(m.value) == s
  {
    if s == "axiom" then Some(Axiom)
    else if s == "web" then Some(Web)
    else if s == "key" then Some(Key)
    else None
  }

  predicate Free(s: string, stops: set<char>) {
    forall i :: 0 <= i < |s| ==> s[i] !in stops
  }

  /** `find`: where the first stop character stands, or the length if none. */
  function UpTo(s: string, stops: set<char>): (n: nat)
    ensures n <= |s| && Free(s[..n], stops)
    ensures n < |s| ==> s[n] in stops
  {
    if s == "" || s[0] in stops then 0 else 1 + UpTo(s[1..], stops)
  }

  lemma {:induction false} UpToUnique(a: string, b: string, stops: set<char>)
    requires Free(a, stops) && (b == "" || b[0] in stops)
    ensures UpTo(a + b, stops) == |a|
  {
    if a == "" {
      assert a + b == b;
    } else {
      UpToUnique(a[1..], b, stops);
      assert (a + b)[1..] == a[1..] + b;
    }
  }

  lemma Rejoin(s: string, n: nat)
    requires n <= |s|
    ensures s[..n] + s[n..] == s
    ensures n < |s| ==> s[..n] + ([s[n]] + s[n + 1..]) == s
  {
  }

  const AFTER_IDENTIFIER: set<char> := {'/', '?', '#'}
  const AFTER_PATH: set<char> := {'?', '#'}

  const SCHEME: string := "did:"

  /** `starts_with("did:")` and `split_once(':')`: method text and body. */
  function SplitHead(s: string): Option<(string, string)> {
    if !(SCHEME <= s) then None
    else
      var rest := s[|SCHEME|..];
      var colon := UpTo(rest, {':'});
      if colon == |rest| then None else Some((rest[..colon], rest[colon + 1..]))
  }

  function Parse(s: string): Result<Did, DidError> {
    var head := SplitHead(s);
    if head.None? then Err(InvalidFormat)
    else
      var m := MethodOf(head.value.0);
      if m.None? then Err(UnsupportedMethod) else Ok(ParseBody(m.value, head.value.1))
  }

  function ParseBody(m: Method, body: string): Did {
    var end := UpTo(body, AFTER_IDENTIFIER);
    ParseSuffix(Did(m, body[..end], None, None, None), body[end..])
  }

  /** The part after the identifier: a path if it starts with '/', then query
      and fragment. */
  function ParseSuffix(did: Did, rest: string): Did {
    var n := PathEnd(rest);
    did.(path := if n > 0 then Some(rest[..n]) else None,
         query := QueryOf(rest[n..]),
         fragment := FragmentOf(rest[n..]))
  }

  function PathEnd(rest: string): (n: nat)
    ensures n <= |rest|
    ensures n > 0 <==> rest != "" && rest[0] == '/'
    ensures Free(rest[..n], AFTER_PATH)
    ensures n < |rest| ==> rest[n] in AFTER_PATH || (n == 0 && rest[0] != '/')
  {
    if rest != "" && rest[0] == '/' then UpTo(rest, AFTER_PATH) else 0
  }

  /** A '?' counts only before any '#'. */
  function QueryOf(cursor: string): Option<string> {
    var hash := UpTo(cursor, {'#'});
    var question := UpTo(cursor[..hash], {'?'});
    if question < hash then Some(cursor[question + 1..hash]) else None
  }

  /** The first '#' absorbs everything after it. */
  function FragmentOf(cursor: string): Option<string> {
    var hash := UpTo(cursor, {'#'});
    if hash < |cursor| then Some(cursor[hash + 1..]) else None
  }

  function OrEmpty(s: Option<string>): string {
    if s.Some? then s.value else ""
  }

  function Marked(mark: char, s: Option<string>): string {
    if s.Some? then [mark] + s.value else ""
  }

  function PrintQuery(query: Option<string>, fragment: Option<string>): string {
    Marked('?', query) + Marked('#', fragment)
  }

  function PrintSuffix(did: Did): string {
    OrEmpty(did.path) + PrintQuery(did.query, did.fragment)
  }

  function JoinHead(m: string, body: string): string {
    SCHEME + (m + ([':'] + body))
  }

  function Print(did: Did): string {
    JoinHead(MethodText(did.didMethod), did.identifier + PrintSuffix(did))
  }

  /** DIDs that have a text form: no component holds a character that would end
      it early, and a path is absolute. */
  predicate WellFormed(did: Did) {
    && Free(did.identifier, AFTER_IDENTIFIER)
    && (did.path.Some? ==>
          did.path.value != "" && did.path.value[0] == '/' && Free(did.path.value, AFTER_PATH))
    && (did.query.Some? ==> Free(did.query.value, {'#'}))
  }

  lemma QueryPrintsBack(cursor: string)
    requires cursor == "" || cursor[0] in AFTER_PATH
    ensures PrintQuery(QueryOf(cursor), FragmentOf(cursor)) == cursor
  {
    var hash := UpTo(cursor, {'#'});
    assert hash > 0 ==> UpTo(cursor[..hash], {'?'}) == 0;
    Rejoin(cursor, hash);
  }

  lemma SuffixPrintsBack(did: Did, rest: string)
    requires rest == "" || rest[0] in AFTER_IDENTIFIER
    ensures PrintSuffix(ParseSuffix(did, rest)) == rest
  {
    var n := PathEnd(rest);
    QueryPrintsBack(rest[n..]);
    Rejoin(rest, n);
  }

  lemma QueryFree(cursor: string)
    ensures QueryOf(cursor).Some? ==> Free(QueryOf(cursor).value, {'#'})
  {
    var hash := UpTo(cursor, {'#'});
    assert Free(cursor[..hash], {'#'});
  }

  lemma SuffixWellFormed(did: Did, rest: string)
    requires Free(did.identifier, AFTER_IDENTIFIER)
    ensures WellFormed(ParseSuffix(did, rest))
  {
    var n := PathEnd(rest);
    QueryFree(rest[n..]);
  }

  lemma BodyPrintsBack(m: Method, body: string)
    ensures var did := ParseBody(m, body);
            did.didMethod == m && did.identifier + PrintSuffix(did) == body && WellFormed(did)
  {
    var end := UpTo(body, AFTER_IDENTIFIER);
    var did := Did(m, body[..end], None, None, None);
    SuffixPrintsBack(did, body[end..]);
    SuffixWellFormed(did, body[end..]);
    Rejoin(body, end);
  }

  /** Printing any parsed string returns that string, and parsing yields only
      well-formed DIDs. */
  lemma PrintParse(s: string)
    ensures Parse(s).Ok? ==> Print(Parse(s).value) == s && WellFormed(Parse(s).value)
  {
    if Parse(s).Ok? {
      var (m, body) := SplitHead(s).value;
      SplitHeadJoins(s);
      BodyPrintsBack(MethodOf(m).value, body);
    }
  }

  lemma SplitHeadJoins(s: string)
    ensures SplitHead(s).Some? ==> JoinHead(SplitHead(s).value.0, SplitHead(s).value.1) == s
  {
    if SplitHead(s).Some? {
      var rest := s[|SCHEME|..];
      Rejoin(rest, UpTo(rest, {':'}));
      Rejoin(s, |SCHEME|);
    }
  }

  lemma QueryParsesBack(query: Option<string>, fragment: Option<string>)
    requires query.Some? ==> Free(query.value, {'#'})
    ensures var cursor := PrintQuery(query, fragment);
            QueryOf(cursor) == query && FragmentOf(cursor) == fragment
  {
    var a, b := Marked('?', query), Marked('#', fragment);
    var cursor := a + b;
    UpToUnique(a, b, {'#'});
    assert cursor[..|a|] == a;
    if query.Some? {
      assert UpTo(a, {'?'}) == 0;
      assert cursor[1..|a|] == query.value;
    }
    if fragment.Some? {
      assert cursor[|a| + 1..] == fragment.value;
    }
  }

  lemma SuffixParsesBack(did: Did)
    requires WellFormed(did)
    ensures ParseSuffix(did.(path := None, query := None, fragment := None), PrintSuffix(did)) == did
    ensures PrintSuffix(did) == "" || PrintSuffix(did)[0] in AFTER_IDENTIFIER
  {
    var a, b := OrEmpty(did.path), PrintQuery(did.query, did.fragment);
    var rest := PrintSuffix(did);
    QueryParsesBack(did.query, did.fragment);
    UpToUnique(a, b, AFTER_PATH);
    SplitAt(a, b);
    if did.path.Some? {
      assert rest[0] == a[0];
    } else {
      assert rest == b && rest[0..] == b;
    }
  }

  lemma BodyParsesBack(did: Did)
    requires WellFormed(did)
    ensures ParseBody(did.didMethod, did.identifier + PrintSuffix(did)) == did
  {
    SuffixParsesBack(did);
    UpToUnique(did.identifier, PrintSuffix(did), AFTER_IDENTIFIER);
    SplitAt(did.identifier, PrintSuffix(did));
  }

  lemma JoinHeadSplits(m: string, body: string)
    requires Free(m, {':'})
    ensures SplitHead(JoinHead(m, body)) == Some((m, body))
  {
    var tail := [':'] + body;
    SplitAt(SCHEME, m + tail);
    UpToUnique(m, tail, {':'});
    SplitAt(m, tail);
    Rejoin(m + tail, |m|);
    assert tail[1..] == body;
    assert (m + tail)[|m| + 1..] == (m + tail)[|m|..][1..];
  }

  lemma MethodTextParses(m: Method)
    ensures MethodOf(MethodText(m)) == Some(m) && Free(MethodText(m), {':'})
  {
  }

  /** A DID survives printing and parsing exactly when it is well formed. */
  lemma ParsePrint(did: Did)
    ensures Parse(Print(did)) == Ok(did) <==> WellFormed(did)
  {
    if WellFormed(did) {
      MethodTextParses(did.didMethod);
      JoinHeadSplits(MethodText(did.didMethod), did.identifier + PrintSuffix(did));
      BodyParsesBack(did);
    } else {
      PrintParse(Print(did));
    }
  }

  /** What a DID looks like: the scheme, the name of the method and the identifier, and then
      what there is of a path, a query after '?' and a fragment after '#'. */
  lemma PrintSays(did: Did)
    ensures Print(did) ==
            (if did.didMethod.Axiom? then "did:axiom:" else if did.didMethod.Web? then "did:web:" else "did:key:")
            + did.identifier
            + (if did.path.Some? then did.path.value else "")
            + (if did.query.Some? then "?" + did.query.value else "")
            + (if did.fragment.Some? then "#" + did.fragment.value else "")
  {
    var m := MethodText(did.didMethod);
    HeadSays(did.didMethod);
    Flat(SCHEME, m, [':'], did.identifier, OrEmpty(did.path), Marked('?', did.query), Marked('#', did.fragment));
  }

  lemma HeadSays(m: Method)
    ensures (SCHEME + MethodText(m)) + [':']
         == if m.Axiom? then "did:axiom:" else if m.Web? then "did:web:" else "did:key:"
  {
  }

  lemma Flat(a: string, b: string, c: string, d: string, e: string, f: string, g: string)
    ensures a + (b + (c + (d + (e + (f + g))))) == ((((((a + b) + c) + d) + e) + f) + g)
  {
  }

  // ---------------------------------------------------------------------
  // Keys.

  function FromPublicKey(key: Bytes32): Did {
    Did(Axiom, Base58.TextOf(key), None, None, None)
  }

  ghost function PublicKey(did: Did): Option<Bytes32> {
    if did.didMethod.Web? then None else Base58.KeyOf(did.identifier)
  }

  /** A DID has a key exactly when its identifier is that key's text and it is not one of
      the web. */
  lemma PublicKeyIff(did: Did, key: Bytes32)
    ensures PublicKey(did) == Some(key) <==> !did.didMethod.Web? && did.identifier == Base58.TextOf(key)
  {
    Base58.KeyTextIsCanonical(did.identifier, key);
  }

  /** Key to DID to text to DID to key is the identity on every 32-byte key. */
  lemma KeyRoundTrip(key: Bytes32)
    ensures var parsed := Parse(Print(FromPublicKey(key)));
            parsed == Ok(FromPublicKey(key)) && PublicKey(parsed.value) == Some(key)
  {
    KeyDidWellFormed(key);
    ParsePrint(FromPublicKey(key));
    Base58.KeyTextIsCanonical(Base58.TextOf(key), key);
  }

  lemma KeyDidWellFormed(key: Bytes32)
    ensures WellFormed(FromPublicKey(key))
  {
    Base58.BytesRoundTrip(key);
    var text := Base58.TextOf(key);
    forall i | 0 <= i < |text| ensures text[i] !in AFTER_IDENTIFIER {
      assert Base58.IsLetter(text[i]);
    }
  }

  /** Two strings that parse to DIDs with the same key, method and no suffix are
      the same string: a key has one DID text per method. */
  lemma KeyTextUnique(s: string, t: string, key: Bytes32)
    requires Parse(s).Ok? && Parse(t).Ok?
    requires PublicKey(Parse(s).value) == Some(key) == PublicKey(Parse(t).value)
    requires Parse(s).value.didMethod == Parse(t).value.didMethod
    requires PrintSuffix(Parse(s).value) == "" == PrintSuffix(Parse(t).value)
    ensures s == t
  {
    PrintParse(s);
    PrintParse(t);
    Base58.KeyTextIsCanonical(Parse(s).value.identifier, key);
    Base58.KeyTextIsCanonical(Parse(t).value.identifier, key);
  }
}
