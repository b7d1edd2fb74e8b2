/** Newline normalisation (`normalise_newlines` in `hanno/lex/preprocessing.py`):
    every accepted kind of line break becomes `\n`; a rejected kind that is
    present is an error at its first position. */
module Preprocessing {
  import opened Wrappers
  import opened Errors

  /** `pat` occurs in `s` at index `i`. */
  predicate OccursAt(s: string, pat: string, i: nat) {
    i + |pat| <= |s| && s[i..i + |pat|] == pat
  }

  /** `str.find`: the first index where `pat` occurs, or -1. */
  function FindText(s: string, pat: string): (r: int)
    ensures r == -1 || (0 <= r && OccursAt(s, pat, r))
    ensures r == -1 ==> forall i :: 0 <= i ==> !OccursAt(s, pat, i)
    ensures r >= 0 ==> forall i :: 0 <= i < r ==> !OccursAt(s, pat, i)
  {
    FindFrom(s, pat, 0)
  }

  function FindFrom(s: string, pat: string, from: nat): (r: int)
    decreases |s| - from
    ensures r == -1 || (from <= r && OccursAt(s, pat, r))
    ensures r == -1 ==> forall i :: from <= i ==> !OccursAt(s, pat, i)
    ensures r >= 0 ==> forall i :: from <= i < r ==> !OccursAt(s, pat, i)
  {
    if from + |pat| > |s| then -1
    else if OccursAt(s, pat, from) then from
    else FindFrom(s, pat, from + 1)
  }

  /** `str.replace`: every occurrence of `pat`, scanning left to right without
      overlaps, becomes `rep`. */
  function ReplaceAll(s: string, pat: string, rep: string): string
    requires pat != []
  {
    if |s| < |pat| then s
    else if s[..|pat|] == pat then rep + ReplaceAll(s[|pat|..], pat, rep)
    else [s[0]] + ReplaceAll(s[1..], pat, rep)
  }

  /** The line-break kinds in the order they are handled: `\r\n` before `\r`. */
  const AllNewlineTypes: seq<string> := ["\r\n", "\r", "\n"]

  /** The loop of `normalise_newlines` from the `i`-th line-break kind on. */
  function NormaliseFrom(source: string, accepted: set<string>, i: nat): Result<string, CompilerError>
    decreases |AllNewlineTypes| - i
  {
    if i >= |AllNewlineTypes| then Ok(source)
    else
      var kind := AllNewlineTypes[i];
      if kind == "\n" then NormaliseFrom(source, accepted, i + 1)
      else if kind in accepted then NormaliseFrom(ReplaceAll(source, kind, "\n"), accepted, i + 1)
      else
        var pos := FindText(source, kind);
        if pos != -1 then Err(IllegalChar((pos, pos + 1)))
        else NormaliseFrom(source, accepted, i + 1)
  }

  /** `normalise_newlines`: reassigns the source once per line-break kind. */
  method NormaliseNewlines(source: string, accepted: set<string>) returns (r: Result<string, CompilerError>)
    ensures r == NormaliseFrom(source, accepted, 0)
  {
    var text := source;
    for i := 0 to |AllNewlineTypes|
      invariant NormaliseFrom(text, accepted, i) == NormaliseFrom(source, accepted, 0)
    {
      var kind := AllNewlineTypes[i];
      if kind == "\n" {
        continue;
      }
      if kind in accepted {
        text := ReplaceAll(text, kind, "\n");
      } else {
        var pos := FindText(text, kind);
        if pos != -1 {
          return Err(IllegalChar((pos, pos + 1)));
        }
      }
    }
    return Ok(text);
  }

  /** The intended meaning, in one pass: a `\r\n` pair or a lone `\r` is a
      line break and becomes one `\n`; everything else is kept. */
  function Unified(s: string): string {
    if s == [] then []
    else if |s| >= 2 && s[..2] == "\r\n" then "\n" + Unified(s[2..])
    else if s[0] == '\r' then "\n" + Unified(s[1..])
    else [s[0]] + Unified(s[1..])
  }

  lemma {:induction false} ReplaceThenReplace(s: string)
    ensures ReplaceAll(ReplaceAll(s, "\r\n", "\n"), "\r", "\n") == Unified(s)
    decreases |s|
  {
    if s == [] {
    } else if |s| >= 2 && s[..2] == "\r\n" {
      ReplaceThenReplace(s[2..]);
      var rest := ReplaceAll(s[2..], "\r\n", "\n");
      assert ReplaceAll(s, "\r\n", "\n") == "\n" + rest;
      assert ("\n" + rest)[..1] != "\r" && ("\n" + rest)[1..] == rest;
    } else if |s| == 1 {
      assert ReplaceAll(s, "\r\n", "\n") == s;
      assert s[1..] == [];
    } else {
      ReplaceThenReplace(s[1..]);
      var rest := ReplaceAll(s[1..], "\r\n", "\n");
      assert ReplaceAll(s, "\r\n", "\n") == [s[0]] + rest;
      assert ([s[0]] + rest)[..1] == [s[0]] && ([s[0]] + rest)[1..] == rest;
    }
  }

  /** The unified text has no carriage returns left. */
  lemma {:induction false} UnifiedHasNoCR(s: string)
    ensures '\r' !in Unified(s)
    decreases |s|
  {
    if s == [] {
    } else if |s| >= 2 && s[..2] == "\r\n" {
      UnifiedHasNoCR(s[2..]);
    } else {
      UnifiedHasNoCR(s[1..]);
    }
  }

  /** Without carriage returns there is nothing to unify. */
  lemma {:induction false} UnifiedWithoutCR(s: string)
    requires '\r' !in s
    ensures Unified(s) == s
    decreases |s|
  {
    if s != [] {
      assert s[0] in s;
      assert forall c :: c in s[1..] ==> c in s;
      UnifiedWithoutCR(s[1..]);
    }
  }

  /** With `\r\n` and `\r` both accepted, the result is the unified text: a CRLF
      pair gives one newline, and no carriage return remains. */
  lemma NormaliseAccepted(source: string, accepted: set<string>)
    requires "\r\n" in accepted && "\r" in accepted
    ensures NormaliseFrom(source, accepted, 0) == Ok(Unified(source))
    ensures '\r' !in NormaliseFrom(source, accepted, 0).value
  {
    ReplaceThenReplace(source);
    UnifiedHasNoCR(source);
  }

  lemma {:induction false} ReplaceAbsent(s: string, pat: string, rep: string)
    requires pat != [] && pat[0] !in s
    ensures ReplaceAll(s, pat, rep) == s
    decreases |s|
  {
    if |s| >= |pat| {
      assert s[0] in s;
      assert s[..|pat|][0] == s[0];
      assert forall c :: c in s[1..] ==> c in s;
      ReplaceAbsent(s[1..], pat, rep);
    }
  }

  lemma NotFound(s: string, pat: string)
    requires pat != [] && pat[0] !in s
    ensures FindText(s, pat) == -1
  {

  }

  /** A source without carriage returns is returned unchanged, whichever kinds
      are accepted. */
  lemma NormaliseNoCR(source: string, accepted: set<string>)
    requires '\r' !in source
    ensures NormaliseFrom(source, accepted, 0) == Ok(source)
  {
    ReplaceAbsent(source, "\r\n", "\n");
    ReplaceAbsent(source, "\r", "\n");
    NotFound(source, "\r\n");
    NotFound(source, "\r");
  }

  /** A rejected `\r\n` that is present is reported at its first position. */
  lemma NormaliseRejectsCRLF(source: string, accepted: set<string>)
    requires "\r\n" !in accepted && FindText(source, "\r\n") != -1
    ensures var pos := FindText(source, "\r\n");
      NormaliseFrom(source, accepted, 0) == Err(IllegalChar((pos, pos + 1)))
  {
  }

  /** With `\r\n` accepted and `\r` rejected, a carriage return left after the
      pairs were replaced is reported at its first position in that text. */
  lemma NormaliseRejectsCR(source: string, accepted: set<string>)
    requires "\r\n" in accepted && "\r" !in accepted
    ensures var text := ReplaceAll(source, "\r\n", "\n");
      var pos := FindText(text, "\r");
      NormaliseFrom(source, accepted, 0) == if pos == -1 then Ok(text) else Err(IllegalChar((pos, pos + 1)))
  {
  }
}
