/** The escape expansion of `hanno/visitors/string_expander.py`: every string
    scalar of the tree, in expressions and in patterns, has its backslash
    escapes replaced by the characters they name. The platform's path
    separator, which `\/` stands for, is a parameter. */
module StringExpander {
  import opened Wrappers
  import opened Errors
  import opened Text
  import opened Ast

  /** The letters that may follow a backslash in a special escape. */
  predicate IsSpecialLetter(c: char) {
    c in "abfnrvt/'\"\\"
  }

  predicate AllHex(t: string) {
    forall k :: 0 <= k < |t| ==> IsHexDigit(t[k])
  }

  /** The four alternatives of `ESCAPE_PATTERN`, with the letter or the
      hexadecimal digits each one captured. */
  datatype Escape = Special(letter: char) | OneByte(digits: string) | TwoByte(digits: string) | ThreeByte(digits: string)

  /** What the pattern guarantees of what it captured. */
  predicate Captured(e: Escape) {
    if e.Special? then IsSpecialLetter(e.letter) else AllHex(e.digits)
  }

  /** How many characters an escape occupies in the source text. */
  function Width(e: Escape): nat {
    match e
    case Special(_) => 2
    case OneByte(_) => 3
    case TwoByte(_) => 6
    case ThreeByte(_) => 8
  }

  /** The escape `ESCAPE_PATTERN` matches at offset `i`, trying its
      alternatives in order, or None when none matches there. */
  function EscapeAt(s: string, i: nat): (r: Option<Escape>)
    ensures r.Some? ==> i + Width(r.value) <= |s| && s[i] == '\\'
    ensures r.Some? ==> Captured(r.value)
    ensures r.Some? && r.value.Special? ==> r.value.letter == s[i + 1]
    ensures r.Some? && !r.value.Special? ==> !IsSpecialLetter(s[i + 1])
  {
    if i + 2 > |s| || s[i] != '\\' then None
    else if IsSpecialLetter(s[i + 1]) then Some(Special(s[i + 1]))
    else if i + 3 <= |s| && AllHex(s[i + 1..i + 3]) then Some(OneByte(s[i + 1..i + 3]))
    else if i + 6 <= |s| && s[i + 1] == 'u' && AllHex(s[i + 2..i + 6]) then Some(TwoByte(s[i + 2..i + 6]))
    else if i + 8 <= |s| && s[i + 1] == 'U' && AllHex(s[i + 2..i + 8]) then Some(ThreeByte(s[i + 2..i + 8]))
    else None
  }

  /** `SPECIAL_ESCAPES`: the character each special escape stands for. */
  function SpecialEscape(letter: char, sep: char): char
    requires IsSpecialLetter(letter)
  {
    match letter
    case 'a' => 7 as char
    case 'b' => 8 as char
    case 'f' => 12 as char
    case 'n' => '\n'
    case 'r' => '\r'
    case 'v' => 11 as char
    case 't' => '\t'
    case '/' => sep
    case _ => letter
  }

  /** Python's `chr`: a code point past 0x10FFFF raises ValueError. */
  function Chr(code: nat): (r: Result<char, CompilerError>)
    ensures r.Ok? ==> r.value as int == code
    ensures code >= 0x11_0000 ==> r == Err(ValueError)
  {
    if code < 0xD800 || 0xE000 <= code < 0x11_0000 then Ok(code as char) else Err(ValueError)
  }

  /** `process_match`: the character an escape stands for. */
  function Decode(e: Escape, sep: char): (r: Result<char, CompilerError>)
    requires Captured(e)
    ensures e.Special? ==> r == Ok(SpecialEscape(e.letter, sep))
    ensures !e.Special? && r.Ok? ==> r.value as int == HexNumber(e.digits)
    ensures !e.Special? && HexNumber(e.digits) >= 0x11_0000 ==> r == Err(ValueError)
    ensures r.Err? ==> !e.Special? && r.error == ValueError
  {
    match e
    case Special(letter) => Ok(SpecialEscape(letter, sep))
    case OneByte(digits) => Chr(HexNumber(digits))
    case TwoByte(digits) => Chr(HexNumber(digits))
    case ThreeByte(digits) => Chr(HexNumber(digits))
  }

  /** Puts `prefix` in front of a successful result. */
  function Prefixed(prefix: string, r: Result<string, CompilerError>): Result<string, CompilerError> {
    if r.Ok? then Ok(prefix + r.value) else r
  }

  predicate NoBackslash(s: string, i: nat) {
    forall k :: i <= k < |s| ==> s[k] != '\\'
  }

  /** The expansion of `s[from..]`: each escape, found left to right the
      way `finditer` finds them, becomes its character, and the text
      between escapes is copied. */
  function Expanded(s: string, from: nat, sep: char): (r: Result<string, CompilerError>)
    requires from <= |s|
    ensures r.Err? ==> r.error == ValueError
    ensures r.Ok? ==> |r.value| <= |s| - from
    decreases |s| - from
  {
    match NextEscape(s, from)
    case None => Ok(s[from..])
    case Some((start, e)) => Spliced(s[from..start], e, sep, Expanded(s, start + Width(e), sep))
  }

  /** One match in the expansion: the text before it, the escape's
      character and the expansion after it; an escape that names no
      character fails the whole. */
  function Spliced(before: string, e: Escape, sep: char, after: Result<string, CompilerError>): (r: Result<string, CompilerError>)
    requires Captured(e)
    ensures after.Err? && after.error == ValueError ==> r.Err? && r.error == ValueError
    ensures r.Ok? ==> after.Ok? && |r.value| == |before| + 1 + |after.value|
  {
    match Decode(e, sep)
    case Err(error) => Err(error)
    case Ok(c) => Prefixed(before + [c], after)
  }

  /** Text with no backslash from offset `from` on holds no escape. */
  lemma {:induction false} NoBackslashNoEscape(s: string, from: nat)
    requires NoBackslash(s, from)
    ensures NextEscape(s, from).None?
    decreases |s| - from
  {
    if from < |s| {
      NoBackslashNoEscape(s, from + 1);
    }
  }

  /** Text with no backslash expands to itself. */
  lemma NoBackslashUnchanged(s: string, from: nat, sep: char)
    requires from <= |s| && NoBackslash(s, from)
    ensures Expanded(s, from, sep) == Ok(s[from..])
  {
    NoBackslashNoEscape(s, from);
  }

  /** `"".join(parts)`. */
  function Concat(parts: seq<string>): string {
    if parts == [] then [] else Concat(parts[..|parts| - 1]) + parts[|parts| - 1]
  }

  lemma ConcatTwo(parts: seq<string>, x: string, y: string)
    ensures Concat(parts + [x] + [y]) == Concat(parts) + x + y
  {
    assert (parts + [x] + [y])[..|parts| + 1] == parts + [x];
    assert (parts + [x])[..|parts|] == parts;
  }

  lemma PrefixedTwice(a: string, b: string, r: Result<string, CompilerError>)
    ensures Prefixed(a, Prefixed(b, r)) == Prefixed(a + b, r)
  {
    if r.Ok? {
      assert a + (b + r.value) == (a + b) + r.value;
    }
  }

  /** The next match of `finditer` at or after offset `from`: where it
      starts and which escape it is. */
  function NextEscape(s: string, from: nat): (r: Option<(nat, Escape)>)
    ensures r.Some? ==> from <= r.value.0 < |s| && EscapeAt(s, r.value.0) == Some(r.value.1)
    decreases |s| - from
  {
    if from >= |s| then None
    else match EscapeAt(s, from)
      case Some(e) => Some((from, e))
      case None => NextEscape(s, from + 1)
  }

  lemma PrefixedEmpty(r: Result<string, CompilerError>)
    ensures r == Prefixed([], r)
  {
    if r.Ok? {
      assert [] + r.value == r.value;
    }
  }

  /** The state of the loop of `expand_string`: the parts collected so
      far, followed by the expansion of the text from the end of the last
      match, make up the expansion of the whole string. */
  ghost predicate Collected(s: string, sep: char, whole: Result<string, CompilerError>,
                            parts: seq<string>, prevEnd: nat, hasIterated: bool)
  {
    prevEnd <= |s|
    && whole == Prefixed(Concat(parts), Expanded(s, prevEnd, sep))
    && (!hasIterated ==> prevEnd == 0 && parts == [])
  }

  /** One turn of the loop of `expand_string`: the text up to the match and
      the escape's character join what is collected. */
  lemma {:induction false} MatchStep(s: string, sep: char, whole: Result<string, CompilerError>, parts: seq<string>,
                  prevEnd: nat, hasIterated: bool, start: nat, e: Escape, c: char,
                  parts': seq<string>, prevEnd': nat)
    requires Collected(s, sep, whole, parts, prevEnd, hasIterated)
    requires NextEscape(s, prevEnd) == Some((start, e)) && Decode(e, sep) == Ok(c)
    requires prevEnd <= start && parts' == parts + [s[prevEnd..start]] + [[c]] && prevEnd' == start + Width(e)
    ensures prevEnd < prevEnd' && Collected(s, sep, whole, parts', prevEnd', true)
  {
    ExpandedMatched(s, prevEnd, start, e, c, sep);
    CollectedStep(s, sep, whole, parts, prevEnd, hasIterated, start, c, parts', prevEnd');
  }

  /** What is collected grows by the text before a match and the match's
      character, and the expansion still to come starts after the match. */
  lemma CollectedStep(s: string, sep: char, whole: Result<string, CompilerError>, parts: seq<string>,
                      prevEnd: nat, hasIterated: bool, start: nat, c: char,
                      parts': seq<string>, prevEnd': nat)
    requires Collected(s, sep, whole, parts, prevEnd, hasIterated)
    requires prevEnd <= start < prevEnd' <= |s|
    requires Expanded(s, prevEnd, sep) == Prefixed(s[prevEnd..start] + [c], Expanded(s, prevEnd', sep))
    requires parts' == parts + [s[prevEnd..start]] + [[c]]
    ensures Collected(s, sep, whole, parts', prevEnd', true)
  {
    JoinMatch(whole, parts, s[prevEnd..start], c, Expanded(s, prevEnd, sep), Expanded(s, prevEnd', sep), parts');
  }

  /** The expansion from an offset whose next escape names a character. */
  lemma ExpandedMatched(s: string, from: nat, start: nat, e: Escape, c: char, sep: char)
    requires from <= |s| && NextEscape(s, from) == Some((start, e)) && Decode(e, sep) == Ok(c)
    ensures from <= start < start + Width(e) <= |s|
    ensures Expanded(s, from, sep) == Prefixed(s[from..start] + [c], Expanded(s, start + Width(e), sep))
  {
    EscapeBounds(s, from, start, e);
    ExpandedAtEscape(s, from, start, e, sep);
  }

  /** The parts collected, then the text before a match and its character,
      then the expansion after it. */
  lemma JoinMatch(whole: Result<string, CompilerError>, parts: seq<string>, before: string, c: char,
                  here: Result<string, CompilerError>, after: Result<string, CompilerError>, parts': seq<string>)
    requires whole == Prefixed(Concat(parts), here) && here == Prefixed(before + [c], after)
    requires parts' == parts + [before] + [[c]]
    ensures whole == Prefixed(Concat(parts'), after)
  {
    PrefixedTwice(Concat(parts), before + [c], after);
    ConcatTwo(parts, before, [c]);
    assert Concat(parts) + (before + [c]) == Concat(parts) + before + [c];
  }

  /** An escape naming no character makes the whole expansion fail. */
  lemma MatchFails(s: string, sep: char, whole: Result<string, CompilerError>, parts: seq<string>,
                   prevEnd: nat, hasIterated: bool, start: nat, e: Escape)
    requires Collected(s, sep, whole, parts, prevEnd, hasIterated)
    requires NextEscape(s, prevEnd) == Some((start, e)) && Decode(e, sep).Err?
    ensures whole == Err(Decode(e, sep).error)
  {
  }

  /** When no match is left, the tail completes the expansion. */
  lemma ScanDone(s: string, sep: char, whole: Result<string, CompilerError>, parts: seq<string>,
                 prevEnd: nat, hasIterated: bool)
    requires Collected(s, sep, whole, parts, prevEnd, hasIterated) && NextEscape(s, prevEnd).None?
    ensures prevEnd <= |s|
    ensures hasIterated ==> whole == Ok(Concat(parts + [s[prevEnd..]]))
    ensures !hasIterated ==> whole == Ok(s)
  {
    assert (parts + [s[prevEnd..]])[..|parts|] == parts;
    if !hasIterated {
      assert Concat(parts) + s[prevEnd..] == s;
    }
  }

  /** The search `finditer` makes for its next match. */
  method FindEscape(s: string, from: nat) returns (m: Option<(nat, Escape)>)
    ensures m == NextEscape(s, from)
  {
    var k := from;
    while k < |s|
      invariant from <= k
      invariant NextEscape(s, from) == NextEscape(s, k)
      decreases |s| - k
    {
      var escape := EscapeAt(s, k);
      if escape.Some? {
        return Some((k, escape.value));
      }
      k := k + 1;
    }
    return None;
  }

  /** `expand_string`: for each match of the escape pattern, collects the
      text since the previous match and the escape's character, then the
      tail; a string with no match is returned as it is. */
  method ExpandString(s: string, sep: char) returns (r: Result<string, CompilerError>)
    ensures r == Expanded(s, 0, sep)
  {
    var hasIterated := false;
    var prevEnd: nat := 0;
    var parts: seq<string> := [];
    ghost var whole := Expanded(s, 0, sep);
    PrefixedEmpty(whole);
    var m := FindEscape(s, 0);
    while m.Some?
      invariant m == NextEscape(s, prevEnd)
      invariant Collected(s, sep, whole, parts, prevEnd, hasIterated)
      decreases |s| - prevEnd
    {
      var (start, escape) := m.value;
      hasIterated := true;
      var c := Decode(escape, sep);
      if c.Err? {
        MatchFails(s, sep, whole, parts, prevEnd, hasIterated, start, escape);
        return Err(c.error);
      }
      var parts' := parts + [s[prevEnd..start]] + [[c.value]];
      var prevEnd' := start + Width(escape);
      MatchStep(s, sep, whole, parts, prevEnd, hasIterated, start, escape, c.value, parts', prevEnd');
      parts, prevEnd := parts', prevEnd';
      m := FindEscape(s, prevEnd);
    }
    ScanDone(s, sep, whole, parts, prevEnd, hasIterated);
    if hasIterated {
      parts := parts + [s[prevEnd..]];
      return Ok(Concat(parts));
    }
    return Ok(s);
  }

  /** The hexadecimal digit for `d`. */
  function HexChar(d: nat): (c: char)
    requires d < 16
    ensures IsHexDigit(c) && HexValue(c) == d
  {
    if d < 10 then ('0' as int + d) as char else ('A' as int + d - 10) as char
  }

  function Pow16(w: nat): (p: nat)
    ensures p >= 1
  {
    if w == 0 then 1 else 16 * Pow16(w - 1)
  }

  /** `n` written with `w` hexadecimal digits, most significant first. */
  function HexDigits(n: nat, w: nat): (r: string)
    ensures |r| == w && AllHex(r)
  {
    if w == 0 then [] else HexDigits(n / 16, w - 1) + [HexChar(n % 16)]
  }

  /** Reading the digits back gives the number, when it fits. */
  lemma {:induction false} HexDigitsRead(n: nat, w: nat)
    requires n < Pow16(w)
    ensures HexNumber(HexDigits(n, w)) == n
  {
    if w > 0 {
      HexDigitsRead(n / 16, w - 1);
      var r := HexDigits(n, w);
      assert r[..|r| - 1] == HexDigits(n / 16, w - 1);
    }
  }

  /** The six-digit escape that names `c`. */
  function EscapeOf(c: char): (r: string)
    ensures |r| == 8
  {
    ['\\', 'U'] + HexDigits(c as int, 6)
  }

  /** Every character of `t` written as a six-digit escape. */
  function EscapeAll(t: string): (r: string)
    ensures |r| == 8 * |t|
  {
    if t == [] then [] else EscapeOf(t[0]) + EscapeAll(t[1..])
  }

  /** Two texts that agree from offsets `a` and `b` on agree on every
      piece taken from there. */
  lemma SameRest(s: string, a: nat, t: string, b: nat, x: nat, y: nat)
    requires a <= |s| && b <= |t| && s[a..] == t[b..] && b <= x <= y <= |t|
    ensures a + (y - b) <= |s|
    ensures s[a + (x - b)..a + (y - b)] == t[x..y]
    ensures s[a + (x - b)..] == t[x..]
  {
    assert |s| - a == |t| - b;
    forall i | a <= i < |s|
      ensures s[i] == t[i - a + b]
    {
      assert s[a..][i - a] == t[b..][i - a];
    }
    assert s[a + (x - b)..a + (y - b)] == t[x..y];
    assert s[a + (x - b)..] == t[x..];
  }

  /** The escape at an offset depends only on the text from there on. */
  lemma EscapeAtSame(s: string, a: nat, t: string, b: nat)
    requires a <= |s| && b <= |t| && s[a..] == t[b..]
    ensures EscapeAt(s, a) == EscapeAt(t, b)
  {
    assert |s| - a == |t| - b;
    if b + 2 <= |t| {
      SameRest(s, a, t, b, b, b + 2);
      assert s[a] == s[a..a + 2][0] && t[b] == t[b..b + 2][0];
      assert s[a + 1] == s[a..a + 2][1] && t[b + 1] == t[b..b + 2][1];
      if b + 3 <= |t| { SameRest(s, a, t, b, b + 1, b + 3); }
      if b + 6 <= |t| { SameRest(s, a, t, b, b + 2, b + 6); }
      if b + 8 <= |t| { SameRest(s, a, t, b, b + 2, b + 8); }
    }
  }

  /** The expansion from an offset whose next escape is `e` at `start`. */
  lemma ExpandedAtEscape(s: string, from: nat, start: nat, e: Escape, sep: char)
    requires NextEscape(s, from) == Some((start, e))
    requires from <= start && start + Width(e) <= |s| && Captured(e)
    ensures Expanded(s, from, sep) == Spliced(s[from..start], e, sep, Expanded(s, start + Width(e), sep))
  {
  }

  lemma EscapeBounds(s: string, from: nat, start: nat, e: Escape)
    requires NextEscape(s, from) == Some((start, e))
    ensures from <= start && start + Width(e) <= |s| && Captured(e)
  {
    assert EscapeAt(s, start) == Some(e);
  }

  /** A six-digit escape at the head of a text names its character. */
  lemma EscapeOfAt(c: char, rest: string, sep: char)
    ensures EscapeAt(EscapeOf(c) + rest, 0) == Some(ThreeByte(HexDigits(c as int, 6)))
    ensures Decode(ThreeByte(HexDigits(c as int, 6)), sep) == Ok(c)
  {
    var s := EscapeOf(c) + rest;
    HexDigitsRead(c as int, 6);
    assert s[2..8] == HexDigits(c as int, 6);
    SixDigitsAt(s, HexDigits(c as int, 6));
  }

  /** A text that starts with an escape expands to that escape's
      character followed by the expansion of the rest. */
  lemma ExpandedHead(s: string, e: Escape, c: char, sep: char)
    requires EscapeAt(s, 0) == Some(e) && Decode(e, sep) == Ok(c)
    ensures Width(e) <= |s| && Expanded(s, 0, sep) == Prefixed([c], Expanded(s, Width(e), sep))
  {
    assert s[0..0] + [c] == [c];
  }

  /** Expansion inverts writing every character as a six-digit escape. */
  lemma ExpandEscapeAll(t: string, sep: char)
    ensures Expanded(EscapeAll(t), 0, sep) == Ok(t)
  {
    ExpandEscapesFrom(EscapeAll(t), 0, t, sep);
  }

  /** From an offset where the escapes of `t` fill the rest of the text,
      the expansion is `t`. */
  lemma {:induction false} ExpandEscapesFrom(s: string, i: nat, t: string, sep: char)
    requires i <= |s| && s[i..] == EscapeAll(t)
    ensures Expanded(s, i, sep) == Ok(t)
    decreases |t|
  {
    if t == [] {
      assert NextEscape(s, i).None?;
    } else {
      var head, tail := EscapeOf(t[0]), EscapeAll(t[1..]);
      assert s[i..] == head + tail;
      assert s[i..i + 8] == head by { assert s[i..i + 8] == s[i..][..8]; }
      assert s[i + 8..] == tail by { assert s[i + 8..] == s[i..][8..]; }
      EscapeStep(s, i, t[0], sep);
      ExpandEscapesFrom(s, i + 8, t[1..], sep);
      assert [t[0]] + t[1..] == t;
    }
  }

  /** A six-digit escape at offset `i` expands to its character. */
  lemma EscapeStep(s: string, i: nat, c: char, sep: char)
    requires i + 8 <= |s| && s[i..i + 8] == EscapeOf(c)
    ensures Expanded(s, i, sep) == Prefixed([c], Expanded(s, i + 8, sep))
  {
    var e := ThreeByte(HexDigits(c as int, 6));
    EscapeFound(s, i, c, sep);
    EscapeBounds(s, i, i, e);
    ExpandedAtEscape(s, i, i, e, sep);
    assert s[i..i] + [c] == [c];
  }

  /** The search from `i` stops at the six-digit escape written there. */
  lemma EscapeFound(s: string, i: nat, c: char, sep: char)
    requires i + 8 <= |s| && s[i..i + 8] == EscapeOf(c)
    ensures NextEscape(s, i) == Some((i, ThreeByte(HexDigits(c as int, 6))))
    ensures Decode(ThreeByte(HexDigits(c as int, 6)), sep) == Ok(c)
  {
    var rest := s[i + 8..];
    EscapeOfAt(c, rest, sep);
    assert s[i..] == EscapeOf(c) + rest;
    EscapeAtSame(s, i, EscapeOf(c) + rest, 0);
  }

  /** A text that is one escape and then plain text. */
  lemma ExpandSingle(s: string, e: Escape, c: char, sep: char)
    requires EscapeAt(s, 0) == Some(e) && Decode(e, sep) == Ok(c)
    requires NoBackslash(s, Width(e))
    ensures Expanded(s, 0, sep) == Ok([c] + s[Width(e)..])
  {
    NoBackslashNoEscape(s, Width(e));
    assert s[0..0] + [c] == [c];
  }

  /** `\U` and six hexadecimal digits make a six-digit escape. */
  lemma SixDigitsAt(s: string, digits: string)
    requires |s| >= 8 && s[0] == '\\' && s[1] == 'U' && s[2..8] == digits && AllHex(digits)
    ensures EscapeAt(s, 0) == Some(ThreeByte(digits))
  {
    assert !AllHex(s[1..3]) by { assert s[1..3][0] == 'U'; }
  }

  /** `\u` and four hexadecimal digits make a four-digit escape. */
  lemma FourDigitsAt(s: string, digits: string)
    requires |s| >= 6 && s[0] == '\\' && s[1] == 'u' && s[2..6] == digits && AllHex(digits)
    ensures EscapeAt(s, 0) == Some(TwoByte(digits))
  {
    assert !AllHex(s[1..3]) by { assert s[1..3][0] == 'u'; }
  }

  lemma HexNumberSnoc(t: string, c: char)
    requires AllHex(t) && IsHexDigit(c)
    ensures AllHex(t + [c]) && HexNumber(t + [c]) == HexNumber(t) * 16 + HexValue(c)
  {
    assert (t + [c])[..|t|] == t;
  }

  /** `\f` expands to the form feed. */
  lemma FormFeedSample(f: string, sep: char)
    requires f == "\\f"
    ensures Expanded(f, 0, sep) == Ok([12 as char])
  {
    assert f[2..] == [];
    ExpandSingle(f, Special('f'), 12 as char, sep);
    assert [12 as char] + f[2..] == [12 as char];
  }

  /** `\/` expands to the path separator. */
  lemma SeparatorSample(users: string, sep: char)
    requires users == "\\/Users"
    ensures Expanded(users, 0, sep) == Ok([sep] + "Users")
  {
    assert users[2..] == "Users";
    assert NoBackslash(users, 2) by {
      forall k | 2 <= k < |users| ensures users[k] != '\\' {
        assert users[k] == "Users"[k - 2];
      }
    }
    ExpandSingle(users, Special('/'), sep, sep);
  }

  /** `\b` is taken as a special escape even where a hexadecimal digit
      follows, because that alternative is tried first. */
  lemma BackspaceBeforeHexSample(bf: string, sep: char)
    requires bf == "\\bF"
    ensures Expanded(bf, 0, sep) == Ok([8 as char, 'F'])
  {
    assert bf[2..] == "F";
    ExpandSingle(bf, Special('b'), 8 as char, sep);
    assert [8 as char] + bf[2..] == [8 as char, 'F'];
  }

  /** The source's two-digit example. */
  lemma TwoDigitSample(s: string, sep: char)
    requires s == "\\5F"
    ensures Expanded(s, 0, sep) == Ok("_")
  {
    HexNumberSnoc(['5'], 'F');
    assert s[1..3] == ['5'] + ['F'];
    assert s[3..] == [];
    ExpandSingle(s, OneByte(s[1..3]), '_', sep);
    assert ['_'] + s[3..] == "_";
  }

  /** The source's four-digit example. */
  lemma FourDigitSample(s: string, sep: char)
    requires s == "\\u039B"
    ensures Expanded(s, 0, sep) == Ok([0x39B as char])
  {
    var d := ['0'];
    HexNumberSnoc(d, '3');
    HexNumberSnoc(d + ['3'], '9');
    HexNumberSnoc(d + ['3'] + ['9'], 'B');
    assert s[2..6] == d + ['3'] + ['9'] + ['B'];
    FourDigitsAt(s, s[2..6]);
    assert s[6..] == [];
    ExpandSingle(s, TwoByte(s[2..6]), 0x39B as char, sep);
    assert [0x39B as char] + s[6..] == [0x39B as char];
  }

  /** The source's six-digit example. */
  lemma SixDigitSample(s: string, sep: char)
    requires s == "\\U01F4A9"
    ensures Expanded(s, 0, sep) == Ok([0x1F4A9 as char])
  {
    var d := ['0'];
    HexNumberSnoc(d, '1');
    HexNumberSnoc(d + ['1'], 'F');
    HexNumberSnoc(d + ['1'] + ['F'], '4');
    HexNumberSnoc(d + ['1'] + ['F'] + ['4'], 'A');
    HexNumberSnoc(d + ['1'] + ['F'] + ['4'] + ['A'], '9');
    assert s[2..8] == d + ['1'] + ['F'] + ['4'] + ['A'] + ['9'];
    SixDigitsAt(s, s[2..8]);
    assert s[8..] == [];
    ExpandSingle(s, ThreeByte(s[2..8]), 0x1F4A9 as char, sep);
    assert [0x1F4A9 as char] + s[8..] == [0x1F4A9 as char];
  }

  /** A backslash that starts no escape stays as it is. */
  lemma UnknownEscapeSample(s: string, sep: char)
    requires s == "\\q"
    ensures Expanded(s, 0, sep) == Ok(s)
  {
    assert EscapeAt(s, 0).None? && EscapeAt(s, 1).None?;
    assert NextEscape(s, 0).None?;
    assert s[0..] == s;
  }

  /** A hexadecimal escape past 0x10FFFF, which Python's `chr` refuses,
      makes the whole expansion fail. */
  lemma CodeTooLarge(s: string, from: nat, sep: char, start: nat, e: Escape)
    requires from <= |s| && NextEscape(s, from) == Some((start, e))
    requires !e.Special? && HexNumber(e.digits) >= 0x11_0000
    ensures Expanded(s, from, sep) == Err(ValueError)
  {
  }

  /** A string value with its escapes expanded; other scalars are kept. */
  function ExpandValue(v: Value, sep: char): (r: Result<Value, CompilerError>)
    ensures r.Err? ==> r.error == ValueError
    ensures r.Ok? ==> r.value.StrValue? == v.StrValue?
    ensures r.Ok? && !v.StrValue? ==> r.value == v
  {
    if v.StrValue? then
      var text :- Expanded(v.text, 0, sep);
      Ok(StrValue(text))
    else Ok(v)
  }

  /** `visit_pattern`: string scalars are expanded, pair and list patterns
      are rebuilt from their expanded parts, and every other pattern is
      kept. */
  function ExpandPattern(p: Pattern, sep: char): (r: Result<Pattern, CompilerError>)
    ensures r.Err? ==> r.error == ValueError
  {
    match p
    case PairPattern(first, second) =>
      var first' :- ExpandPattern(first, sep);
      var second' :- ExpandPattern(second, sep);
      Ok(PairPattern(first', second'))
    case ListPattern(initials, rest) =>
      var initials' :- ExpandPatterns(initials, sep);
      Ok(ListPattern(initials', rest))
    case ScalarPattern(v) =>
      var v' :- ExpandValue(v, sep);
      Ok(ScalarPattern(v'))
    case _ => Ok(p)
  }

  function ExpandPatterns(ps: seq<Pattern>, sep: char): (r: Result<seq<Pattern>, CompilerError>)
    ensures r.Err? ==> r.error == ValueError
    ensures r.Ok? ==> |r.value| == |ps|
  {
    if ps == [] then Ok([])
    else
      var head :- ExpandPattern(ps[0], sep);
      var tail :- ExpandPatterns(ps[1..], sep);
      Ok([head] + tail)
  }

  /** `StringExpander`: every node is rebuilt from its expanded children,
      and string scalars have their escapes expanded. */
  function ExpandNode(node: Node, sep: char): (r: Result<Node, CompilerError>)
    ensures r.Err? ==> r.error == ValueError
    decreases Depth(node), 0
  {
    match node
    case Apply(func, arg) =>
      var func' :- ExpandNode(func, sep);
      var arg' :- ExpandNode(arg, sep);
      Ok(Apply(func', arg'))
    case Block(exprs) =>
      var exprs' :- ExpandNodes(exprs, sep);
      Ok(Block(exprs'))
    case Cond(pred, cons, elseBranch) =>
      var pred' :- ExpandNode(pred, sep);
      var cons' :- ExpandNode(cons, sep);
      var else' :- ExpandNode(elseBranch, sep);
      Ok(Cond(pred', cons', else'))
    case Define(target, value) =>
      var target' :- ExpandPattern(target, sep);
      var value' :- ExpandNode(value, sep);
      Ok(Define(target', value'))
    case Function(param, body) =>
      var param' :- ExpandPattern(param, sep);
      var body' :- ExpandNode(body, sep);
      Ok(Function(param', body'))
    case List(elements) =>
      var elements' :- ExpandNodes(elements, sep);
      Ok(List(elements'))
    case Match(subject, cases) =>
      var subject' :- ExpandNode(subject, sep);
      var cases' :- ExpandArms(cases, sep);
      Ok(Match(subject', cases'))
    case Pair(first, second) =>
      var first' :- ExpandNode(first, sep);
      var second' :- ExpandNode(second, sep);
      Ok(Pair(first', second'))
    case Scalar(v) =>
      var v' :- ExpandValue(v, sep);
      Ok(Scalar(v'))
    case Name(_) => Ok(node)
    case Unit => Ok(node)
  }

  function ExpandNodes(nodes: seq<Node>, sep: char): (r: Result<seq<Node>, CompilerError>)
    ensures r.Err? ==> r.error == ValueError
    ensures r.Ok? ==> |r.value| == |nodes|
    decreases DepthAll(nodes), 1, |nodes|
  {
    if nodes == [] then Ok([])
    else
      var head :- ExpandNode(nodes[0], sep);
      var tail :- ExpandNodes(nodes[1..], sep);
      Ok([head] + tail)
  }

  function ExpandArms(arms: seq<Arm>, sep: char): (r: Result<seq<Arm>, CompilerError>)
    ensures r.Err? ==> r.error == ValueError
    ensures r.Ok? ==> |r.value| == |arms|
    decreases DepthArms(arms), 1, |arms|
  {
    if arms == [] then Ok([])
    else
      var pattern :- ExpandPattern(arms[0].pattern, sep);
      var body :- ExpandNode(arms[0].body, sep);
      var tail :- ExpandArms(arms[1..], sep);
      Ok([Arm(pattern, body)] + tail)
  }

  /** No string in the value holds a backslash. */
  predicate PlainValue(v: Value) {
    v.StrValue? ==> NoBackslash(v.text, 0)
  }

  predicate PlainPattern(p: Pattern) {
    match p
    case PairPattern(first, second) => PlainPattern(first) && PlainPattern(second)
    case ListPattern(initials, _) => PlainPatterns(initials)
    case ScalarPattern(v) => PlainValue(v)
    case _ => true
  }

  predicate PlainPatterns(ps: seq<Pattern>) {
    ps == [] || (PlainPattern(ps[0]) && PlainPatterns(ps[1..]))
  }

  /** No string scalar of the tree, in an expression or a pattern, holds a
      backslash. */
  predicate PlainNode(node: Node)
    decreases node
  {
    match node
    case Apply(func, arg) => PlainNode(func) && PlainNode(arg)
    case Block(exprs) => PlainNodes(exprs)
    case Cond(pred, cons, elseBranch) => PlainNode(pred) && PlainNode(cons) && PlainNode(elseBranch)
    case Define(target, value) => PlainPattern(target) && PlainNode(value)
    case Function(param, body) => PlainPattern(param) && PlainNode(body)
    case List(elements) => PlainNodes(elements)
    case Match(subject, cases) => PlainNode(subject) && PlainArms(cases)
    case Pair(first, second) => PlainNode(first) && PlainNode(second)
    case Scalar(v) => PlainValue(v)
    case _ => true
  }

  predicate PlainNodes(nodes: seq<Node>)
    decreases nodes
  {
    nodes == [] || (PlainNode(nodes[0]) && PlainNodes(nodes[1..]))
  }

  predicate PlainArms(arms: seq<Arm>)
    decreases arms
  {
    arms == [] || (PlainArm(arms[0]) && PlainArms(arms[1..]))
  }

  predicate PlainArm(arm: Arm)
    decreases arm
  {
    PlainPattern(arm.pattern) && PlainNode(arm.body)
  }

  lemma PlainValueUnchanged(v: Value, sep: char)
    requires PlainValue(v)
    ensures ExpandValue(v, sep) == Ok(v)
  {
    if v.StrValue? {
      NoBackslashUnchanged(v.text, 0, sep);
      assert v.text[0..] == v.text;
    }
  }

  /** A pattern with no backslash in its strings comes back unchanged. */
  lemma {:induction false} PlainPatternUnchanged(p: Pattern, sep: char)
    requires PlainPattern(p)
    ensures ExpandPattern(p, sep) == Ok(p)
  {
    match p
    case PairPattern(first, second) =>
      PlainPatternUnchanged(first, sep);
      PlainPatternUnchanged(second, sep);
    case ListPattern(initials, _) =>
      PlainPatternsUnchanged(initials, sep);
    case ScalarPattern(v) =>
      PlainValueUnchanged(v, sep);
    case _ =>
  }

  lemma {:induction false} PlainPatternsUnchanged(ps: seq<Pattern>, sep: char)
    requires PlainPatterns(ps)
    ensures ExpandPatterns(ps, sep) == Ok(ps)
  {
    if ps != [] {
      PlainPatternUnchanged(ps[0], sep);
      PlainPatternsUnchanged(ps[1..], sep);
      assert [ps[0]] + ps[1..] == ps;
    }
  }

  /** A tree with no backslash in its strings comes back unchanged. */
  lemma {:induction false} PlainNodeUnchanged(node: Node, sep: char)
    requires PlainNode(node)
    ensures ExpandNode(node, sep) == Ok(node)
    decreases Depth(node), 0
  {
    match node
    case Apply(func, arg) =>
      PlainNodeUnchanged(func, sep);
      PlainNodeUnchanged(arg, sep);
    case Block(exprs) =>
      PlainNodesUnchanged(exprs, sep);
    case Cond(pred, cons, elseBranch) =>
      PlainNodeUnchanged(pred, sep);
      PlainNodeUnchanged(cons, sep);
      PlainNodeUnchanged(elseBranch, sep);
    case Define(target, value) =>
      PlainPatternUnchanged(target, sep);
      PlainNodeUnchanged(value, sep);
    case Function(param, body) =>
      PlainPatternUnchanged(param, sep);
      PlainNodeUnchanged(body, sep);
    case List(elements) =>
      PlainNodesUnchanged(elements, sep);
    case Match(subject, cases) =>
      PlainNodeUnchanged(subject, sep);
      PlainArmsUnchanged(cases, sep);
    case Pair(first, second) =>
      PlainNodeUnchanged(first, sep);
      PlainNodeUnchanged(second, sep);
    case Scalar(v) =>
      PlainValueUnchanged(v, sep);
    case Name(_) =>
    case Unit =>
  }

  lemma {:induction false} PlainNodesUnchanged(nodes: seq<Node>, sep: char)
    requires PlainNodes(nodes)
    ensures ExpandNodes(nodes, sep) == Ok(nodes)
    decreases DepthAll(nodes), 1, |nodes|
  {
    if nodes != [] {
      PlainNodeUnchanged(nodes[0], sep);
      PlainNodesUnchanged(nodes[1..], sep);
      assert [nodes[0]] + nodes[1..] == nodes;
    }
  }

  lemma {:induction false} PlainArmsUnchanged(arms: seq<Arm>, sep: char)
    requires PlainArms(arms)
    ensures ExpandArms(arms, sep) == Ok(arms)
    decreases DepthArms(arms), 1, |arms|
  {
    if arms != [] {
      PlainPatternUnchanged(arms[0].pattern, sep);
      PlainNodeUnchanged(arms[0].body, sep);
      PlainArmsUnchanged(arms[1..], sep);
      assert [Arm(arms[0].pattern, arms[0].body)] + arms[1..] == arms;
    }
  }

  /** The source's tree example: only the string holding `\/` changes, to
      the path separator followed by the rest. */
  lemma TreeSample(text: string, drive: string, users: string, sep: char)
    requires NoBackslash(text, 0) && NoBackslash(drive, 0) && users == "\\/Users"
    ensures ExpandNode(Cond(Scalar(BoolValue(false)), Scalar(StrValue(text)),
                            Apply(Apply(Name("+"), Scalar(StrValue(drive))), Scalar(StrValue(users)))), sep)
            == Ok(Cond(Scalar(BoolValue(false)), Scalar(StrValue(text)),
                       Apply(Apply(Name("+"), Scalar(StrValue(drive))), Scalar(StrValue([sep] + "Users")))))
  {
    var inner := Apply(Name("+"), Scalar(StrValue(drive)));
    PlainNodeUnchanged(Scalar(StrValue(text)), sep);
    PlainNodeUnchanged(Scalar(BoolValue(false)), sep);
    PlainNodeUnchanged(inner, sep);
    SeparatorSample(users, sep);
    var expanded := Scalar(StrValue([sep] + "Users"));
    assert ExpandNode(Scalar(StrValue(users)), sep) == Ok(expanded);
    assert ExpandNode(Apply(inner, Scalar(StrValue(users))), sep) == Ok(Apply(inner, expanded));
  }
}
