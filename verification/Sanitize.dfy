/** Cleaning text from untrusted devices before anyone reads it. */
module Sanitize {
  import opened Prelude

  const MAX_UNTRUSTED_STRING_CHARS: nat := 256

  const ESC: char := 0x1B as char
  const BEL: char := 0x07 as char

  predicate IsAsciiControl(c: char) {
    c as int < 0x20 || c as int == 0x7F
  }

  /** Bidirectional overrides and isolates, the zero-width space and the byte order mark. */
  predicate IsFormatChar(c: char) {
    var n := c as int;
    0x202A <= n <= 0x202E || 0x2066 <= n <= 0x2069 || n == 0x200B || n == 0xFEFF
  }

  predicate IsStripped(c: char) {
    IsAsciiControl(c) || IsFormatChar(c)
  }

  predicate Clean(s: string) {
    forall c :: c in s ==> !IsStripped(c)
  }

  // ---------------------------------------------------------------------
  // Escape sequences, as a grammar over what follows.

  predicate IsFinalByte(c: char) {
    0x40 <= c as int <= 0x7E
  }

  /** The rest of a control sequence: up to its final byte, or to the end. */
  function ControlTail(s: string): (n: nat)
    ensures n <= |s|
  {
    if s == [] then 0
    else if IsFinalByte(s[0]) then 1
    else 1 + ControlTail(s[1..])
  }

  /** The rest of an operating system command: up to its terminator, or to the end. */
  function CommandTail(s: string): (n: nat)
    ensures n <= |s|
  {
    if s == [] then 0
    else if s[0] == BEL then 1
    else if s[0] == ESC && |s| > 1 && s[1] == '\\' then 2
    else 1 + CommandTail(s[1..])
  }

  /** How much an escape at the front of `s` takes with it. */
  function EscapeLength(s: string): (n: nat)
    requires s != []
    ensures 0 < n <= |s|
  {
    if |s| > 1 && s[1] == '[' then 2 + ControlTail(s[2..])
    else if |s| > 1 && s[1] == ']' then 2 + CommandTail(s[2..])
    else 1
  }

  function Strip(s: string): string
    decreases |s|
  {
    if s == [] then []
    else if s[0] != ESC then [s[0]] + Strip(s[1..])
    else Strip(s[EscapeLength(s)..])
  }

  lemma {:induction false} StripRemovesEscapes(s: string)
    ensures ESC !in Strip(s)
    ensures ESC !in s ==> Strip(s) == s
    decreases |s|
  {
    if s != [] {
      StripRemovesEscapes(if s[0] != ESC then s[1..] else s[EscapeLength(s)..]);
      assert s[0] != ESC && ESC !in s ==> ESC !in s[1..];
    }
  }

  lemma StripStep(s: string, i: nat)
    requires i < |s|
    ensures s[i] != ESC ==> Strip(s[i..]) == [s[i]] + Strip(s[i + 1..])
    ensures s[i] == ESC ==> Strip(s[i..]) == Strip(s[i + EscapeLength(s[i..])..])
  {
    var n := EscapeLength(s[i..]);
    assert s[i..][1..] == s[i + 1..];
    assert s[i..][n..] == s[i + n..];
  }

  method StripAnsiEscapes(s: string) returns (out: string, stripped: bool)
    ensures out == Strip(s)
    ensures stripped <==> ESC in s
  {
    out := [];
    stripped := false;
    var i := 0;
    assert s[0..] == s;
    while i < |s|
      invariant i <= |s|
      invariant Strip(s) == out + Strip(s[i..])
      invariant stripped ==> ESC in s
      invariant !stripped ==> forall k :: 0 <= k < i ==> s[k] != ESC
    {
      StripStep(s, i);
      if s[i] != ESC {
        Associate(out, [s[i]], Strip(s[i + 1..]));
        out := out + [s[i]];
        i := i + 1;
      } else {
        stripped := true;
        i := MeasureEscape(s, i);
      }
    }
  }

  /** The index after the escape at `i`. */
  method MeasureEscape(s: string, i: nat) returns (end: nat)
    requires i < |s| && s[i] == ESC
    ensures end == i + EscapeLength(s[i..]) <= |s|
  {
    if i + 1 < |s| && s[i + 1] == '[' {
      var j := i + 2;
      while j < |s| && !IsFinalByte(s[j])
        invariant i + 2 <= j <= |s|
        invariant ControlTail(s[i + 2..]) == j - (i + 2) + ControlTail(s[j..])
      {
        assert s[j..][1..] == s[j + 1..];
        j := j + 1;
      }
      assert s[i..][2..] == s[i + 2..];
      end := if j < |s| then j + 1 else |s|;
    } else if i + 1 < |s| && s[i + 1] == ']' {
      assert s[i..][2..] == s[i + 2..];
      var j := i + 2;
      while j < |s|
        invariant i + 2 <= j <= |s|
        invariant CommandTail(s[i + 2..]) == j - (i + 2) + CommandTail(s[j..])
      {
        if s[j] == BEL {
          return j + 1;
        }
        if s[j] == ESC && j + 1 < |s| && s[j + 1] == '\\' {
          return j + 2;
        }
        assert s[j..][1..] == s[j + 1..];
        j := j + 1;
      }
      end := |s|;
    } else {
      end := i + 1;
    }
  }

  // What the grammar removes, said of the text itself.

  /** Text without escapes is kept up to the first escape. */
  lemma {:induction false} TextIsKept(text: string, rest: string)
    requires ESC !in text
    ensures Strip(text + rest) == text + Strip(rest)
  {
    if text == [] {
      assert text + rest == rest;
    } else {
      assert (text + rest)[1..] == text[1..] + rest;
      TextIsKept(text[1..], rest);
    }
  }

  lemma {:induction false} ControlTailIs(parameters: string, final: char, rest: string)
    requires IsFinalByte(final) && forall c :: c in parameters ==> !IsFinalByte(c)
    ensures ControlTail(parameters + ([final] + rest)) == |parameters| + 1
  {
    var s := parameters + ([final] + rest);
    if parameters != [] {
      assert s[1..] == parameters[1..] + ([final] + rest);
      ControlTailIs(parameters[1..], final, rest);
    }
  }

  /** A control sequence vanishes with its parameters and its final byte, from '@' to '~'. */
  lemma ControlSequenceRemoved(parameters: string, final: char, rest: string)
    requires '@' <= final <= '~' && forall c :: c in parameters ==> !('@' <= c <= '~')
    ensures Strip([0x1B as char, '['] + (parameters + ([final] + rest))) == Strip(rest)
  {
    var tail := parameters + ([final] + rest);
    var s := [ESC, '['] + tail;
    ControlTailIs(parameters, final, rest);
    assert s[2..] == tail;
    assert s[EscapeLength(s)..] == rest;
  }

  /** Nothing in `text` ends a command: no bell, and no escape before a backslash. */
  predicate NoEnd(text: string) {
    && BEL !in text
    && forall i :: 0 <= i < |text| - 1 && text[i] == ESC ==> text[i + 1] != '\\'
  }

  lemma {:induction false} CommandTailIs(text: string, terminator: string, rest: string)
    requires NoEnd(text) && (terminator == [BEL] || terminator == [ESC, '\\'])
    ensures CommandTail(text + (terminator + rest)) == |text| + |terminator|
  {
    var s := text + (terminator + rest);
    if text != [] {
      assert s[1..] == text[1..] + (terminator + rest);
      assert NoEnd(text[1..]) by {
        forall i | 0 <= i < |text[1..]| - 1 && text[1..][i] == ESC ensures text[1..][i + 1] != '\\' {
          assert text[i + 1] == ESC;
        }
      }
      assert s[1] == if |text| > 1 then text[1] else terminator[0];
      CommandTailIs(text[1..], terminator, rest);
    }
  }

  /** An operating system command vanishes with its text and either terminator; a bare
      escape inside it does not end it. */
  lemma CommandRemoved(text: string, terminator: string, rest: string)
    requires NoEnd(text) && (terminator == [0x07 as char] || terminator == [0x1B as char, '\\'])
    ensures Strip([0x1B as char, ']'] + (text + (terminator + rest))) == Strip(rest)
  {
    var tail := text + (terminator + rest);
    var s := [ESC, ']'] + tail;
    CommandTailIs(text, terminator, rest);
    assert s[2..] == tail;
    assert s[EscapeLength(s)..] == rest;
  }

  lemma {:induction false} ControlRunsOut(s: string)
    requires forall c :: c in s ==> !IsFinalByte(c)
    ensures ControlTail(s) == |s|
  {
    if s != [] {
      ControlRunsOut(s[1..]);
    }
  }

  lemma {:induction false} CommandRunsOut(s: string)
    requires NoEnd(s)
    ensures CommandTail(s) == |s|
  {
    if s != [] {
      assert NoEnd(s[1..]) by {
        forall i | 0 <= i < |s[1..]| - 1 && s[1..][i] == ESC ensures s[1..][i + 1] != '\\' {
          assert s[i + 1] == ESC;
        }
      }
      CommandRunsOut(s[1..]);
    }
  }

  /** A control sequence or command that is never ended takes all the rest with it. */
  lemma UnterminatedSwallowsRest(text: string, rest: string)
    requires ESC !in text
    ensures (forall c :: c in rest ==> !IsFinalByte(c)) ==> Strip(text + ([ESC, '['] + rest)) == text
    ensures NoEnd(rest) ==> Strip(text + ([ESC, ']'] + rest)) == text
  {
    var a, b := [ESC, '['] + rest, [ESC, ']'] + rest;
    TextIsKept(text, a);
    TextIsKept(text, b);
    assert a[2..] == rest && b[2..] == rest;
    if forall c :: c in rest ==> !IsFinalByte(c) {
      ControlRunsOut(rest);
      assert Strip(a) == Strip(a[|a|..]);
    }
    if NoEnd(rest) {
      CommandRunsOut(rest);
      assert Strip(b) == Strip(b[|b|..]);
    }
  }

  /** Any other escape vanishes alone. */
  lemma BareEscapeRemoved(rest: string)
    requires rest == [] || (rest[0] != '[' && rest[0] != ']')
    ensures Strip([ESC] + rest) == Strip(rest)
  {
    var s := [ESC] + rest;
    assert s[1..] == rest;
  }

  /** `s` without its escape characters. */
  function Unescaped(s: string): (r: string)
    ensures forall c :: c in r <==> c in s && c != ESC
  {
    if s == [] then [] else if s[0] == ESC then Unescaped(s[1..]) else [s[0]] + Unescaped(s[1..])
  }

  /** If no escape is followed by a bracket, stripping removes the escape characters and
      nothing else. */
  lemma {:induction false} BareEscapesVanish(s: string)
    requires forall i :: 0 <= i < |s| - 1 && s[i] == ESC ==> s[i + 1] != '[' && s[i + 1] != ']'
    ensures Strip(s) == Unescaped(s)
  {
    if s != [] {
      forall i | 0 <= i < |s[1..]| - 1 && s[1..][i] == ESC ensures s[1..][i + 1] != '[' && s[1..][i + 1] != ']' {
        assert s[i + 1] == ESC;
      }
      BareEscapesVanish(s[1..]);
      if s[0] == ESC {
        BareEscapeRemoved(s[1..]);
        assert [ESC] + s[1..] == s;
      }
    }
  }

  // ---------------------------------------------------------------------
  // One string.

  function Filtered(s: string): (r: string)
    ensures |r| <= |s|
    ensures Clean(r)
    ensures Clean(s) ==> r == s
  {
    if s == [] then []
    else if IsStripped(s[0]) then Filtered(s[1..])
    else [s[0]] + Filtered(s[1..])
  }

  datatype SanitizedString = SanitizedString(value: string, truncated: bool, controlCharsStripped: bool)

  function Sanitized(raw: string): SanitizedString {
    var visible := Strip(raw);
    var cleaned := Filtered(visible);
    SanitizedString(if |cleaned| > MAX_UNTRUSTED_STRING_CHARS then cleaned[..MAX_UNTRUSTED_STRING_CHARS] else cleaned,
                    |cleaned| > MAX_UNTRUSTED_STRING_CHARS,
                    ESC in raw || !Clean(visible))
  }

  lemma {:induction false} FilteredAppend(s: string, c: char)
    ensures Filtered(s + [c]) == Filtered(s) + (if IsStripped(c) then [] else [c])
  {
    if s == [] {
      assert [c][1..] == [];
    } else {
      assert (s + [c])[1..] == s[1..] + [c];
      FilteredAppend(s[1..], c);
    }
  }

  method FilterControls(s: string) returns (cleaned: string, stripped: bool)
    ensures cleaned == Filtered(s)
    ensures stripped <==> !Clean(s)
  {
    cleaned := [];
    stripped := false;
    for i := 0 to |s|
      invariant cleaned == Filtered(s[..i])
      invariant stripped <==> !Clean(s[..i])
    {
      FilteredAppend(s[..i], s[i]);
      assert s[..i + 1] == s[..i] + [s[i]];
      if IsStripped(s[i]) {
        stripped := true;
      } else {
        cleaned := cleaned + [s[i]];
      }
    }
    assert s[..|s|] == s;
  }

  method SanitizeStr(raw: string) returns (r: SanitizedString)
    ensures r == Sanitized(raw)
  {
    var visible, escapes := StripAnsiEscapes(raw);
    var cleaned, controls := FilterControls(visible);
    if |cleaned| > MAX_UNTRUSTED_STRING_CHARS {
      return SanitizedString(cleaned[..MAX_UNTRUSTED_STRING_CHARS], true, escapes || controls);
    }
    return SanitizedString(cleaned, false, escapes || controls);
  }

  /** `a` is `b` with some characters left out. */
  predicate Subsequence(a: string, b: string) {
    || a == []
    || (b != [] && ((a[0] == b[0] && Subsequence(a[1..], b[1..])) || Subsequence(a, b[1..])))
  }

  lemma {:induction false} SkipFront(a: string, b: string, n: nat)
    requires n <= |b| && Subsequence(a, b[n..])
    ensures Subsequence(a, b)
    decreases n
  {
    if n == 0 {
      assert b[0..] == b;
    } else {
      assert b[1..][n - 1..] == b[n..];
      SkipFront(a, b[1..], n - 1);
    }
  }

  lemma {:induction false} StripIsSubsequence(s: string)
    ensures Subsequence(Strip(s), s)
    decreases |s|
  {
    if s != [] {
      if s[0] != ESC {
        StripIsSubsequence(s[1..]);
        assert Strip(s)[1..] == Strip(s[1..]);
      } else {
        StripIsSubsequence(s[EscapeLength(s)..]);
        SkipFront(Strip(s), s, EscapeLength(s));
      }
    }
  }

  lemma {:induction false} FilteredIsSubsequence(s: string)
    ensures Subsequence(Filtered(s), s)
  {
    if s != [] {
      FilteredIsSubsequence(s[1..]);
      if !IsStripped(s[0]) {
        assert Filtered(s)[1..] == Filtered(s[1..]);
      }
    }
  }

  lemma {:induction false} PrefixIsSubsequence(s: string, n: nat)
    requires n <= |s|
    ensures Subsequence(s[..n], s)
  {
    if n > 0 {
      PrefixIsSubsequence(s[1..], n - 1);
      assert s[..n][1..] == s[1..][..n - 1];
    }
  }

  lemma {:induction false} SubsequenceTransitive(a: string, b: string, c: string)
    requires Subsequence(a, b) && Subsequence(b, c)
    ensures Subsequence(a, c)
    decreases |b| + |c|
  {
    if a != [] {
      if b[0] == c[0] && Subsequence(b[1..], c[1..]) {
        if a[0] == b[0] && Subsequence(a[1..], b[1..]) {
          SubsequenceTransitive(a[1..], b[1..], c[1..]);
        } else {
          SubsequenceTransitive(a, b[1..], c[1..]);
        }
      } else {
        SubsequenceTransitive(a, b, c[1..]);
      }
    }
  }

  /** Cleaned text is the original with characters left out: none that is to be
      stripped, and no more than 256 of them. */
  lemma SanitizedIsClean(raw: string)
    ensures var v := Sanitized(raw).value;
            Clean(v) && |v| <= MAX_UNTRUSTED_STRING_CHARS && Subsequence(v, raw)
  {
    var cleaned := Filtered(Strip(raw));
    var v := Sanitized(raw).value;
    StripIsSubsequence(raw);
    FilteredIsSubsequence(Strip(raw));
    PrefixIsSubsequence(cleaned, |v|);
    assert v == cleaned[..|v|];
    SubsequenceTransitive(cleaned, Strip(raw), raw);
    SubsequenceTransitive(v, cleaned, raw);
  }

  /** The characters no cleaned text holds: ASCII controls, bidirectional overrides and
      isolates, the zero-width space and the byte order mark. */
  predicate Unwanted(c: char) {
    || 0 <= c as int <= 0x1F || c as int == 0x7F
    || c as int in {0x202A, 0x202B, 0x202C, 0x202D, 0x202E, 0x2066, 0x2067, 0x2068, 0x2069, 0x200B, 0xFEFF}
  }

  lemma {:induction false} FilteredKeeps(s: string, c: char)
    ensures c in Filtered(s) <==> c in s && !Unwanted(c)
  {
    if s != [] {
      FilteredKeeps(s[1..], c);
      assert c in s <==> c == s[0] || c in s[1..];
    }
  }

  /** Of the text without its escape sequences, the value holds no unwanted character; it
      holds every other one, or is cut, to its first 256; and each flag says exactly what
      was done. */
  lemma SanitizedExact(raw: string)
    ensures var r := Sanitized(raw);
            var visible := Strip(raw);
            && (forall c :: c in r.value ==> !Unwanted(c))
            && |r.value| <= 256 && (r.truncated ==> |r.value| == 256)
            && (!r.truncated ==> forall c :: c in visible && !Unwanted(c) ==> c in r.value)
            && (r.controlCharsStripped <==> (0x1B as char) in raw || exists c :: c in visible && Unwanted(c))
            && (!r.truncated && !(exists c :: c in visible && Unwanted(c)) ==> r.value == visible)
  {
    var visible := Strip(raw);
    forall c ensures c in Filtered(visible) <==> c in visible && !Unwanted(c) {
      FilteredKeeps(visible, c);
    }
    forall c ensures IsStripped(c) <==> Unwanted(c) {
    }
    var r := Sanitized(raw);
    assert forall c :: c in r.value ==> c in Filtered(visible);
  }

  /** The text is unchanged exactly when neither flag is raised. */
  lemma UnchangedIffUnflagged(raw: string)
    ensures Sanitized(raw).value == raw <==> !Sanitized(raw).truncated && !Sanitized(raw).controlCharsStripped
  {
    StripRemovesEscapes(raw);
    if Sanitized(raw).value == raw {
      SanitizedIsClean(raw);
      assert IsStripped(ESC);
    }
  }

  /** A second pass changes nothing and raises no flag. */
  lemma SanitizedTwice(raw: string)
    ensures Sanitized(Sanitized(raw).value) == SanitizedString(Sanitized(raw).value, false, false)
  {
    SanitizedIsClean(raw);
    assert IsStripped(ESC);
    StripRemovesEscapes(Sanitized(raw).value);
  }

  // ---------------------------------------------------------------------
  // JSON trees.

  datatype Json =
    | Null
    | Bool(flag: bool)
    | Number(text: string)
    | String(value: string)
    | Array(items: seq<Json>)
    | Object(members: seq<Member>)

  datatype Member = Member(key: string, json: Json)

  function SanitizedJson(j: Json): Json {
    match j
    case String(s) =>
      var r := Sanitized(s);
      Object([Member("value", String(r.value)), Member("truncated", Bool(r.truncated)),
              Member("control_chars_stripped", Bool(r.controlCharsStripped))])
    case Array(items) => Array(SanitizedItems(items))
    case Object(members) => Object(SanitizedMembers(members))
    case _ => j
  }

  function SanitizedItems(items: seq<Json>): seq<Json> {
    if items == [] then [] else [SanitizedJson(items[0])] + SanitizedItems(items[1..])
  }

  function SanitizedMembers(members: seq<Member>): seq<Member> {
    if members == [] then []
    else [Member(members[0].key, SanitizedJson(members[0].json))] + SanitizedMembers(members[1..])
  }

  /** The string leaves of a tree, in order. */
  function Leaves(j: Json): seq<string> {
    match j
    case String(s) => [s]
    case Array(items) => ItemLeaves(items)
    case Object(members) => MemberLeaves(members)
    case _ => []
  }

  function ItemLeaves(items: seq<Json>): seq<string> {
    if items == [] then [] else Leaves(items[0]) + ItemLeaves(items[1..])
  }

  function MemberLeaves(members: seq<Member>): seq<string> {
    if members == [] then [] else Leaves(members[0].json) + MemberLeaves(members[1..])
  }

  function Values(s: seq<string>): (r: seq<string>)
    ensures |r| == |s|
    ensures forall i :: 0 <= i < |s| ==> r[i] == Sanitized(s[i]).value
  {
    if s == [] then [] else [Sanitized(s[0]).value] + Values(s[1..])
  }

  lemma ValuesAppend(a: seq<string>, b: seq<string>)
    ensures Values(a + b) == Values(a) + Values(b)
  {
  }

  lemma ThreeMembers(a: string, v: string, b: string, t: bool, d: string, c: bool)
    ensures Leaves(Object([Member(a, String(v)), Member(b, Bool(t)), Member(d, Bool(c))])) == [v]
  {
    var x, y, z := Member(a, String(v)), Member(b, Bool(t)), Member(d, Bool(c));
    assert [x, y, z][1..] == [y, z] && [y, z][1..] == [z] && [z][1..] == [];
    assert Leaves(x.json) == [v] && Leaves(y.json) == [] && Leaves(z.json) == [];
    assert MemberLeaves([z]) == [] + MemberLeaves([]);
    assert MemberLeaves([y, z]) == [] + MemberLeaves([z]);
    assert MemberLeaves([x, y, z]) == [v] + [];
  }

  /** The string leaves of a cleaned tree are the cleaned leaves of the tree, in
      order and none added. */
  lemma {:induction false} LeavesAreSanitized(j: Json)
    ensures Leaves(SanitizedJson(j)) == Values(Leaves(j))
    decreases j
  {
    match j
    case String(s) =>
      var r := Sanitized(s);
      ThreeMembers("value", r.value, "truncated", r.truncated, "control_chars_stripped", r.controlCharsStripped);
    case Array(items) => ItemsAreSanitized(items);
    case Object(members) => MembersAreSanitized(members);
    case _ =>
  }

  lemma {:induction false} ItemsAreSanitized(items: seq<Json>)
    ensures ItemLeaves(SanitizedItems(items)) == Values(ItemLeaves(items))
    decreases items
  {
    if items != [] {
      LeavesAreSanitized(items[0]);
      ItemsAreSanitized(items[1..]);
      ValuesAppend(Leaves(items[0]), ItemLeaves(items[1..]));
      assert SanitizedItems(items)[1..] == SanitizedItems(items[1..]);
    }
  }

  lemma {:induction false} MembersAreSanitized(members: seq<Member>)
    ensures MemberLeaves(SanitizedMembers(members)) == Values(MemberLeaves(members))
    decreases members
  {
    if members != [] {
      LeavesAreSanitized(members[0].json);
      MembersAreSanitized(members[1..]);
      ValuesAppend(Leaves(members[0].json), MemberLeaves(members[1..]));
      assert SanitizedMembers(members)[1..] == SanitizedMembers(members[1..]);
    }
  }

  /** So every string leaf of a cleaned tree is clean and short. */
  lemma EveryLeafIsClean(j: Json, leaf: string)
    requires leaf in Leaves(SanitizedJson(j))
    ensures Clean(leaf) && |leaf| <= MAX_UNTRUSTED_STRING_CHARS
  {
    LeavesAreSanitized(j);
    var i :| 0 <= i < |Leaves(j)| && leaf == Sanitized(Leaves(j)[i]).value;
    SanitizedIsClean(Leaves(j)[i]);
  }

  // Where everything is.

  /** The subtrees of a tree, one level down. */
  function Children(j: Json): seq<Json> {
    match j
    case Array(items) => items
    case Object(members) => seq(|members|, i requires 0 <= i < |members| => members[i].json)
    case _ => []
  }

  function Keys(members: seq<Member>): seq<string> {
    seq(|members|, i requires 0 <= i < |members| => members[i].key)
  }

  /** The subtree that a path of positions leads to. */
  function At(j: Json, path: seq<nat>): Option<Json>
    decreases |path|
  {
    if path == [] then Some(j)
    else if path[0] < |Children(j)| then At(Children(j)[path[0]], path[1..])
    else None
  }

  lemma {:induction false} ItemsInPlace(items: seq<Json>)
    ensures |SanitizedItems(items)| == |items|
    ensures forall i :: 0 <= i < |items| ==> SanitizedItems(items)[i] == SanitizedJson(items[i])
  {
    if items != [] {
      ItemsInPlace(items[1..]);
    }
  }

  lemma {:induction false} MembersInPlace(members: seq<Member>)
    ensures |SanitizedMembers(members)| == |members|
    ensures forall i :: 0 <= i < |members| ==>
              SanitizedMembers(members)[i] == Member(members[i].key, SanitizedJson(members[i].json))
  {
    if members != [] {
      MembersInPlace(members[1..]);
    }
  }

  /** What stands in a cleaned tree where `x` stood. */
  predicate StandsFor(r: Json, x: Json) {
    match x
    case String(s) =>
      var c := Sanitized(s);
      r == Object([Member("value", String(c.value)), Member("truncated", Bool(c.truncated)),
                   Member("control_chars_stripped", Bool(c.controlCharsStripped))])
    case Array(items) => r.Array? && |r.items| == |items|
    case Object(members) => r.Object? && Keys(r.members) == Keys(members)
    case _ => r == x
  }

  lemma StandsInPlace(j: Json)
    ensures StandsFor(SanitizedJson(j), j)
    ensures j.Array? || j.Object? ==>
              && |Children(SanitizedJson(j))| == |Children(j)|
              && forall i :: 0 <= i < |Children(j)| ==> Children(SanitizedJson(j))[i] == SanitizedJson(Children(j)[i])
  {
    if j.Array? {
      ItemsInPlace(j.items);
    } else if j.Object? {
      MembersInPlace(j.members);
    }
  }

  /** Cleaning keeps a tree's shape: where any path leads in the tree, the same path
      leads in the cleaned one, to the same number, flag or null, to an array as long, to
      an object with the same keys in order, or to the record of a cleaned string. */
  lemma {:induction false} EveryNodeInPlace(j: Json, path: seq<nat>)
    requires At(j, path).Some?
    ensures At(SanitizedJson(j), path).Some?
    ensures StandsFor(At(SanitizedJson(j), path).value, At(j, path).value)
    decreases |path|
  {
    StandsInPlace(j);
    if path != [] {
      EveryNodeInPlace(Children(j)[path[0]], path[1..]);
    }
  }
}
