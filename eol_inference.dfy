/** End-of-line inference (`hanno/lex/eol_inference.py`): whitespace that holds
    a newline between a token that can end an expression and one that can start
    the next, outside brackets, becomes an `eol` token; other whitespace is
    dropped. */
module EolInference {
  import opened Wrappers
  import opened Errors
  import opened Tokens

  predicate Opening(kind: Kind) { kind == Lbracket || kind == Lparen }

  predicate Closing(kind: Kind) { kind == Rbracket || kind == Rparen }

  /** The kinds that can start an expression. */
  predicate ValidStarter(kind: Kind) {
    match kind
    case Bslash | End | Dash | False | FloatLit | If | IntegerLit | Lbracket | Let
         | Lparen | Match | NameTok | StringLit | True => true
    case _ => false
  }

  /** The kinds that can end an expression. */
  predicate ValidEnding(kind: Kind) {
    match kind
    case End | False | FloatLit | IntegerLit | NameTok | Rbracket | Rparen | StringLit | True => true
    case _ => false
  }

  /** `can_add_eol`. The conditions are tested left to right, so a whitespace
      token without a value only fails (with a TypeError) outside brackets. */
  function CanAddEol(prev: Token, current: Token, next: Option<Token>, depth: int): (r: Result<bool, CompilerError>)
    ensures r.Err? <==> depth == 0 && current.value.None?
    ensures r.Err? ==> r.error == TypeError
    ensures r.Ok? ==> (r.value <==>
      && depth == 0
      && '\n' in current.value.value
      && ValidEnding(prev.kind)
      && (next.None? || ValidStarter(next.value.kind)))
  {
    if depth != 0 then Ok(false)
    else match current.value
      case None => Err(TypeError)
      case Some(text) => Ok('\n' in text && ValidEnding(prev.kind) && (next.None? || ValidStarter(next.value.kind)))
  }

  /** The bracket depth after the given tokens: openings minus closings. */
  function Depth(tokens: seq<Token>): int {
    if tokens == [] then 0
    else
      var last := tokens[|tokens| - 1];
      Depth(tokens[..|tokens| - 1]) + (if Opening(last.kind) then 1 else if Closing(last.kind) then -1 else 0)
  }

  /** The token `_infer` starts from as the "previous" one. */
  const Start := Token((0, 0), Eol, None)

  function LastOr(tokens: seq<Token>, default: Token): Token {
    if tokens == [] then default else tokens[|tokens| - 1]
  }

  /** The token the stream previews after handing out `tokens[i]`. */
  function NextOf(tokens: seq<Token>, i: nat): Option<Token> {
    if i + 1 < |tokens| then Some(tokens[i + 1]) else None
  }

  /** One turn of the loop of `_infer`: a token other than whitespace is
      yielded as it is; whitespace becomes an `eol` with the same span when
      `can_add_eol` allows it, and is dropped otherwise. */
  function Step(before: seq<Token>, token: Token, next: Option<Token>, depth: int): Result<seq<Token>, CompilerError> {
    if token.kind != Whitespace then Ok(before + [token])
    else
      var add :- CanAddEol(LastOr(before, Start), token, next, depth);
      if add then Ok(before + [Token(token.span, Eol, None)]) else Ok(before)
  }

  /** What the loop of `_infer` has yielded after the first `n` input tokens. */
  function Emitted(tokens: seq<Token>, n: nat): Result<seq<Token>, CompilerError>
    requires n <= |tokens|
  {
    if n == 0 then Ok([])
    else
      var before :- Emitted(tokens, n - 1);
      Step(before, tokens[n - 1], NextOf(tokens, n - 1), Depth(tokens[..n - 1]))
  }

  /** `_infer` in full: the yielded tokens and, unless the last one is already
      an `eol`, one more `eol` just after it. */
  function Inferred(tokens: seq<Token>): Result<seq<Token>, CompilerError> {
    var emitted :- Emitted(tokens, |tokens|);
    Ok(WithFinalEol(emitted))
  }

  /** The yielded tokens and, unless the last one is already an `eol`, one
      more `eol` just after it. */
  function WithFinalEol(emitted: seq<Token>): seq<Token> {
    var last := LastOr(emitted, Start);
    if last.kind != Eol then emitted + [Token((last.span.1, last.span.1 + 1), Eol, None)]
    else emitted
  }

  lemma DepthStep(tokens: seq<Token>, i: nat)
    requires i < |tokens|
    ensures Depth(tokens[..i + 1]) == Depth(tokens[..i])
      + (if Opening(tokens[i].kind) then 1 else if Closing(tokens[i].kind) then -1 else 0)
  {
    assert tokens[..i + 1][..i] == tokens[..i];
  }

  lemma EmittedNext(tokens: seq<Token>, i: nat, out: seq<Token>)
    requires i < |tokens| && Emitted(tokens, i) == Ok(out)
    ensures Emitted(tokens, i + 1) == Step(out, tokens[i], NextOf(tokens, i), Depth(tokens[..i]))
  {
  }

  lemma InferredFinal(tokens: seq<Token>, out: seq<Token>)
    requires Emitted(tokens, |tokens|) == Ok(out)
    ensures Inferred(tokens) == Ok(WithFinalEol(out))
  {
  }

  /** A failure part-way through is the failure of the whole. */
  lemma {:induction false} EmittedErr(tokens: seq<Token>, n: nat)
    requires n <= |tokens| && Emitted(tokens, n).Err?
    ensures Inferred(tokens) == Emitted(tokens, n)
    decreases |tokens| - n
  {
    if n < |tokens| {
      EmittedErrNext(tokens, n);
      EmittedErr(tokens, n + 1);
    }
  }

  /** `_infer` as the loop it is, tracking the bracket depth and the previous
      yielded token. */
  method Infer(tokens: seq<Token>) returns (r: Result<seq<Token>, CompilerError>)
    ensures r == Inferred(tokens)
  {
    var parenStackSize := 0;
    var prevToken := Start;
    var out: seq<Token> := [];
    for i := 0 to |tokens|
      invariant Emitted(tokens, i) == Ok(out)
      invariant parenStackSize == Depth(tokens[..i])
      invariant prevToken == LastOr(out, Start)
    {
      var token := tokens[i];
      DepthStep(tokens, i);
      ghost var next := Step(out, token, NextOf(tokens, i), parenStackSize);
      EmittedNext(tokens, i, out);
      if next.Err? {
        EmittedErr(tokens, i + 1);
      }
      if Opening(token.kind) {
        parenStackSize := parenStackSize + 1;
      } else if Closing(token.kind) {
        parenStackSize := parenStackSize - 1;
      } else if token.kind == Whitespace {
        var add := CanAddEol(prevToken, token, NextOf(tokens, i), parenStackSize);
        if add.Err? {
          return Err(add.error);
        }
        if !add.value {
          assert next == Ok(out);
          continue;
        }
        token := Token(token.span, Eol, None);
      }
      prevToken := token;
      out := out + [prevToken];
      assert next == Ok(out);
    }
    InferredFinal(tokens, out);
    if prevToken.kind != Eol {
      var prevEnd := prevToken.span.1;
      out := out + [Token((prevEnd, prevEnd + 1), Eol, None)];
    }
    return Ok(out);
  }

  /** The tokens that are neither whitespace nor `eol`. */
  function Solid(tokens: seq<Token>): (r: seq<Token>)
    ensures |r| <= |tokens|
  {
    if tokens == [] then []
    else
      var last := tokens[|tokens| - 1];
      Solid(tokens[..|tokens| - 1]) + (if last.kind == Whitespace || last.kind == Eol then [] else [last])
  }

  lemma SolidAppend(a: seq<Token>, b: seq<Token>)
    ensures Solid(a + b) == Solid(a) + Solid(b)
    decreases |b|
  {
    if b == [] {
      assert a + b == a;
    } else {
      assert (a + b)[..|a + b| - 1] == a + b[..|b| - 1];
      SolidAppend(a, b[..|b| - 1]);
    }
  }

  lemma StepSolid(before: seq<Token>, token: Token, next: Option<Token>, depth: int)
    requires Step(before, token, next, depth).Ok?
    requires forall k :: 0 <= k < |before| ==> before[k].kind != Whitespace
    ensures Solid(Step(before, token, next, depth).value) == Solid(before) + Solid([token])
    ensures forall k :: 0 <= k < |Step(before, token, next, depth).value| ==>
              Step(before, token, next, depth).value[k].kind != Whitespace
  {
    if token.kind != Whitespace {
      AppendKept(before, token);
    } else {
      var eol := Token(token.span, Eol, None);
      assert Solid([token]) == [];
      if Step(before, token, next, depth).value != before {
        AppendKept(before, eol);
        assert Solid([eol]) == [];
      }
    }
  }

  /** Appending a token other than whitespace to tokens free of whitespace. */
  lemma AppendKept(before: seq<Token>, token: Token)
    requires token.kind != Whitespace
    requires forall k :: 0 <= k < |before| ==> before[k].kind != Whitespace
    ensures Solid(before + [token]) == Solid(before) + Solid([token])
    ensures forall k :: 0 <= k < |before + [token]| ==> (before + [token])[k].kind != Whitespace
  {
    SolidAppend(before, [token]);
  }

  /** Every token other than whitespace and `eol` passes through unchanged and
      in order, and no whitespace token survives. */
  lemma {:induction false} EmittedKeepsSolid(tokens: seq<Token>, n: nat)
    requires n <= |tokens| && Emitted(tokens, n).Ok?
    ensures Solid(Emitted(tokens, n).value) == Solid(tokens[..n])
    ensures forall k :: 0 <= k < |Emitted(tokens, n).value| ==> Emitted(tokens, n).value[k].kind != Whitespace
  {
    if n > 0 {
      EmittedKeepsSolid(tokens, n - 1);
      KeepsSolidStep(tokens, n - 1, Emitted(tokens, n - 1).value);
    }
  }

  predicate NoWhitespace(tokens: seq<Token>) {
    forall k :: 0 <= k < |tokens| ==> tokens[k].kind != Whitespace
  }

  /** One more input token keeps the solid tokens and adds no whitespace. */
  lemma KeepsSolidStep(tokens: seq<Token>, i: nat, before: seq<Token>)
    requires i < |tokens| && Emitted(tokens, i) == Ok(before) && Emitted(tokens, i + 1).Ok?
    requires Solid(before) == Solid(tokens[..i])
    requires NoWhitespace(before)
    ensures Solid(Emitted(tokens, i + 1).value) == Solid(tokens[..i + 1])
    ensures NoWhitespace(Emitted(tokens, i + 1).value)
  {
    var token := tokens[i];
    EmittedNext(tokens, i, before);
    StepSolid(before, token, NextOf(tokens, i), Depth(tokens[..i]));
    assert tokens[..i + 1] == tokens[..i] + [token];
    SolidAppend(tokens[..i], [token]);
  }

  /** The output keeps the solid tokens in order, has no whitespace, and,
      when not empty, ends with an `eol`. */
  lemma InferredShape(tokens: seq<Token>)
    requires Inferred(tokens).Ok?
    ensures Solid(Inferred(tokens).value) == Solid(tokens)
    ensures forall k :: 0 <= k < |Inferred(tokens).value| ==> Inferred(tokens).value[k].kind != Whitespace
    ensures Inferred(tokens).value != [] ==> Inferred(tokens).value[|Inferred(tokens).value| - 1].kind == Eol
  {
    EmittedKeepsSolid(tokens, |tokens|);
    assert tokens[..|tokens|] == tokens;
    var emitted := Emitted(tokens, |tokens|).value;
    InferredFinal(tokens, emitted);
    FinalEolShape(emitted);
  }

  /** Adding the final `eol` keeps the solid tokens, adds no whitespace, and
      leaves an `eol` last. */
  lemma FinalEolShape(emitted: seq<Token>)
    requires forall k :: 0 <= k < |emitted| ==> emitted[k].kind != Whitespace
    ensures Solid(WithFinalEol(emitted)) == Solid(emitted)
    ensures forall k :: 0 <= k < |WithFinalEol(emitted)| ==> WithFinalEol(emitted)[k].kind != Whitespace
    ensures WithFinalEol(emitted) != [] ==> WithFinalEol(emitted)[|WithFinalEol(emitted)| - 1].kind == Eol
  {
    var last := LastOr(emitted, Start);
    if last.kind != Eol {
      var eol := Token((last.span.1, last.span.1 + 1), Eol, None);
      assert WithFinalEol(emitted) == emitted + [eol];
      AppendKept(emitted, eol);
      assert Solid([eol]) == [];
    }
  }

  /** Whitespace tokens that all carry a value. */
  predicate AllWhitespace(tokens: seq<Token>) {
    forall k :: 0 <= k < |tokens| ==> tokens[k].kind == Whitespace && tokens[k].value.Some?
  }

  lemma {:induction false} DepthWhitespace(tokens: seq<Token>)
    requires AllWhitespace(tokens)
    ensures Depth(tokens) == 0
  {
    if tokens != [] {
      DepthWhitespace(tokens[..|tokens| - 1]);
    }
  }

  /** With nothing yielded yet, the previous token is the starting `eol`, which
      cannot end an expression, so whitespace is dropped rather than converted. */
  lemma StepEmpty(before: seq<Token>, token: Token, next: Option<Token>, depth: int)
    requires token.kind == Whitespace ==> depth == 0
    ensures Step(before, token, next, depth) == Ok([]) <==>
              before == [] && token.kind == Whitespace && token.value.Some?
  {
  }

  lemma {:induction false} EmittedEmpty(tokens: seq<Token>, n: nat)
    requires n <= |tokens|
    ensures Emitted(tokens, n) == Ok([]) <==> AllWhitespace(tokens[..n])
  {
    if n > 0 {
      EmittedEmpty(tokens, n - 1);
      EmptyStep(tokens, n - 1);
    }
  }

  lemma EmptyStep(tokens: seq<Token>, i: nat)
    requires i < |tokens|
    requires Emitted(tokens, i) == Ok([]) <==> AllWhitespace(tokens[..i])
    ensures Emitted(tokens, i + 1) == Ok([]) <==> AllWhitespace(tokens[..i + 1])
  {
    SnocPrefix(tokens, i);
    if Emitted(tokens, i).Ok? {
      EmptyStepOk(tokens, i, Emitted(tokens, i).value);
    } else {
      EmittedErrNext(tokens, i);
    }
  }

  lemma SnocPrefix(tokens: seq<Token>, i: nat)
    requires i < |tokens|
    ensures AllWhitespace(tokens[..i + 1]) <==>
              AllWhitespace(tokens[..i]) && tokens[i].kind == Whitespace && tokens[i].value.Some?
  {
    assert tokens[..i + 1] == tokens[..i] + [tokens[i]];
    AllWhitespaceSnoc(tokens[..i], tokens[i]);
  }

  /** One more token after a successful prefix: the output stays empty
      exactly while the input is valued whitespace. */
  lemma EmptyStepOk(tokens: seq<Token>, i: nat, before: seq<Token>)
    requires i < |tokens| && Emitted(tokens, i) == Ok(before)
    requires before == [] <==> AllWhitespace(tokens[..i])
    ensures Emitted(tokens, i + 1) == Ok([]) <==>
              AllWhitespace(tokens[..i]) && tokens[i].kind == Whitespace && tokens[i].value.Some?
  {
    EmittedNext(tokens, i, before);
    if before == [] {
      DepthWhitespace(tokens[..i]);
      StepEmpty(before, tokens[i], NextOf(tokens, i), Depth(tokens[..i]));
    } else {
      StepNonEmpty(before, tokens[i], NextOf(tokens, i), Depth(tokens[..i]));
    }
  }

  lemma EmittedErrNext(tokens: seq<Token>, i: nat)
    requires i < |tokens| && Emitted(tokens, i).Err?
    ensures Emitted(tokens, i + 1).Err?
  {
  }

  lemma AllWhitespaceSnoc(prefix: seq<Token>, token: Token)
    ensures AllWhitespace(prefix + [token]) <==>
              AllWhitespace(prefix) && token.kind == Whitespace && token.value.Some?
  {
    if AllWhitespace(prefix + [token]) {
      assert forall k :: 0 <= k < |prefix| ==> prefix[k] == (prefix + [token])[k];
      assert (prefix + [token])[|prefix|] == token;
    }
  }

  /** Once something has been yielded, the output is never empty again. */
  lemma StepNonEmpty(before: seq<Token>, token: Token, next: Option<Token>, depth: int)
    requires before != []
    ensures Step(before, token, next, depth) != Ok([])
  {
  }

  /** An empty stream, or one of valued whitespace only, gives no tokens at
      all; any other stream that succeeds gives at least one. */
  lemma InferredEmpty(tokens: seq<Token>)
    ensures Inferred(tokens) == Ok([]) <==> AllWhitespace(tokens)
  {
    EmittedEmpty(tokens, |tokens|);
    assert tokens[..|tokens|] == tokens;
  }
}
