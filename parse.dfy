/** The precedence-climbing parser of `hanno/parse.py`. It reads from a cursor
    over the token sequence that the end-of-line inference produced. */
module Parse {
  import opened Wrappers
  import opened Errors
  import opened Text
  import opened Tokens
  import opened Ast

  /** The token stream the parser reads: the tokens and a read position.
      `preview` is None at the end, the stream is true while tokens remain,
      and `consume` at the end fails with UnexpectedEOFError. */
  class Stream {
    const tokens: seq<Token>
    var pos: nat

    ghost predicate Valid()
      reads this
    {
      pos <= |tokens|
    }

    constructor (tokens: seq<Token>)
      ensures Valid() && this.tokens == tokens && pos == 0
    {
      this.tokens := tokens;
      pos := 0;
    }

    /** `__bool__`: tokens remain. */
    predicate NonEmpty()
      reads this
    {
      pos < |tokens|
    }

    /** `preview`: the next token, without consuming it. */
    function Preview(): Option<Token>
      reads this
    {
      if pos < |tokens| then Some(tokens[pos]) else None
    }

    /** `peek`: the next token has one of the given kinds. */
    predicate Peek(kinds: set<Kind>)
      reads this
    {
      pos < |tokens| && tokens[pos].kind in kinds
    }

    /** `next`: consumes the next token, whatever it is. */
    method Next() returns (r: Result<Token, CompilerError>)
      requires Valid()
      modifies this
      ensures Valid()
      ensures old(pos) < |tokens| ==> r == Ok(tokens[old(pos)]) && pos == old(pos) + 1
      ensures old(pos) == |tokens| ==> r == Err(UnexpectedEOF) && pos == old(pos)
    {
      if pos == |tokens| {
        return Err(UnexpectedEOF);
      }
      r := Ok(tokens[pos]);
      pos := pos + 1;
    }

    /** `consume`: the next token, which must have one of the given kinds;
        a token of another kind is consumed and reported. */
    method Consume(kinds: set<Kind>) returns (r: Result<Token, CompilerError>)
      requires Valid()
      modifies this
      ensures Valid()
      ensures old(pos) == |tokens| ==> r == Err(UnexpectedEOF) && pos == old(pos)
      ensures old(pos) < |tokens| ==> pos == old(pos) + 1
      ensures old(pos) < |tokens| ==> r == (var t := tokens[old(pos)];
        if t.kind in kinds then Ok(t) else Err(UnexpectedToken(t.span)))
    {
      var token :- Next();
      if token.kind in kinds {
        return Ok(token);
      }
      return Err(UnexpectedToken(token.span));
    }

    /** `consume_if`: consumes the next token only if it has a given kind. */
    method ConsumeIf(kinds: set<Kind>) returns (b: bool)
      requires Valid()
      modifies this
      ensures Valid()
      ensures b == old(Peek(kinds))
      ensures pos == old(pos) + (if b then 1 else 0)
    {
      if Peek(kinds) {
        pos := pos + 1;
        return true;
      }
      return false;
    }
  }

  /** `precedence_table`, with -10 for the kinds it does not list. */
  function Precedence(kind: Kind): int {
    match kind
    case Let => 0
    case DoubleColon => 10
    case Comma => 20
    case Bslash => 30
    case Match => 40
    case If => 40
    case And => 50
    case Or => 60
    case Greater => 70
    case Less => 70
    case GreaterEqual => 70
    case LessEqual => 70
    case FslashEqual => 80
    case Equal => 80
    case Plus => 90
    case Dash => 90
    case Diamond => 90
    case Fslash => 100
    case Asterisk => 100
    case Percent => 100
    case Caret => 110
    case Tilde => 120
    case Lparen => 130
    case _ => -10
  }

  /** The binary operators of `infix_parsers` and the names they apply. */
  function OperatorName(kind: Kind): Option<string> {
    match kind
    case And => Some("and")
    case Or => Some("or")
    case Greater => Some(">")
    case Less => Some("<")
    case GreaterEqual => Some(">=")
    case LessEqual => Some("<=")
    case Equal => Some("=")
    case FslashEqual => Some("/=")
    case Plus => Some("+")
    case Dash => Some("-")
    case Diamond => Some("<>")
    case Fslash => Some("/")
    case Asterisk => Some("*")
    case Percent => Some("%")
    case Caret => Some("^")
    case _ => None
  }

  /** `infix_parsers` has an entry: a binary operator or the comma. */
  predicate HasInfixParser(kind: Kind) {
    OperatorName(kind).Some? || kind == Comma
  }

  /** `/` is the one right-associative operator: its right operand is parsed
      one precedence level lower, so a second `/` joins the right operand. */
  function RightPrecedence(kind: Kind): int {
    Precedence(kind) - (if kind == Fslash then 1 else 0)
  }

  /** How `parse_expr`'s loop stops: at the end, at a token whose precedence
      does not exceed the bound, or at one with no infix parser. */
  predicate StopsAt(next: Option<Token>, bound: int) {
    next.None? || Precedence(next.value.kind) <= bound || !HasInfixParser(next.value.kind)
  }

  lemma SlashRightAssociative()
    ensures Precedence(Fslash) > RightPrecedence(Fslash)
    ensures Precedence(Caret) == RightPrecedence(Caret)
    ensures forall k :: OperatorName(k).Some? && k != Fslash ==> RightPrecedence(k) == Precedence(k)
  {
  }

  /** `value[1:-1]`: the text of a string literal without its quotes. */
  function Unquote(s: string): (r: string)
    ensures |s| >= 2 ==> [s[0]] + r + [s[|s| - 1]] == s
  {
    if |s| >= 2 then s[1..|s| - 1] else []
  }

  const ScalarKinds: set<Kind> := {False, FloatLit, IntegerLit, StringLit, True}

  /** The value of a scalar token: `False`, `True`, `float(value)`,
      `int(value)` or the string without its quotes. A token without a value
      fails as `float(None)` and `int(None)` do. */
  function ScalarValue(t: Token): Result<Value, CompilerError>
    requires t.kind in ScalarKinds
  {
    if t.kind == False then Ok(BoolValue(false))
    else if t.kind == True then Ok(BoolValue(true))
    else if t.value.None? then Err(TypeError)
    else if t.kind == FloatLit then Ok(FloatValue(t.value.value))
    else if t.kind == StringLit then Ok(StrValue(Unquote(t.value.value)))
    else if t.value.value == [] || !AllDigits(t.value.value) then Err(ValueError)
    else Ok(IntValue(ParseDecimal(t.value.value)))
  }

  /** The scalar node `parse_scalar` builds from a scalar token. */
  function ScalarNode(t: Token): Result<Node, CompilerError>
    requires t.kind in ScalarKinds
  {
    var v :- ScalarValue(t);
    Ok(Scalar(v))
  }

  /** The scalar pattern `parse_factor_pattern` builds from a scalar token. */
  function ScalarPatternOf(t: Token): Result<Pattern, CompilerError>
    requires t.kind in ScalarKinds
  {
    var v :- ScalarValue(t);
    Ok(ScalarPattern(v))
  }

  /** `parse_scalar`. A boolean, float, integer or string token becomes the
      matching scalar; any other token is reported and left in place. */
  method ParseScalar(stream: Stream) returns (r: Result<Node, CompilerError>)
    requires stream.Valid()
    modifies stream
    ensures stream.Valid()
    ensures old(stream.pos) == |stream.tokens| ==> r == Err(UnexpectedEOF) && stream.pos == old(stream.pos)
    ensures old(stream.pos) < |stream.tokens| ==> var t := stream.tokens[old(stream.pos)];
      && (t.kind !in ScalarKinds ==> r == Err(UnexpectedToken(t.span)) && stream.pos == old(stream.pos))
      && (t.kind in ScalarKinds ==> stream.pos == old(stream.pos) + 1 && r == ScalarNode(t))
    ensures r.Ok? ==> r.value.Scalar?
  {
    var token := stream.Preview();
    if token.None? {
      return Err(UnexpectedEOF);
    }
    var t := token.value;
    var isFalse := stream.ConsumeIf({False});
    if isFalse {
      return Ok(Scalar(BoolValue(false)));
    }
    if t.kind == FloatLit {
      var _ := stream.Next();
      if t.value.None? {
        return Err(TypeError);
      }
      return Ok(Scalar(FloatValue(t.value.value)));
    }
    if t.kind == IntegerLit {
      var _ := stream.Next();
      if t.value.None? {
        return Err(TypeError);
      }
      if t.value.value == [] || !AllDigits(t.value.value) {
        return Err(ValueError);
      }
      return Ok(Scalar(IntValue(ParseDecimal(t.value.value))));
    }
    if t.kind == StringLit {
      var _ := stream.Next();
      if t.value.None? {
        return Err(TypeError);
      }
      return Ok(Scalar(StrValue(Unquote(t.value.value))));
    }
    var isTrue := stream.ConsumeIf({True});
    if isTrue {
      return Ok(Scalar(BoolValue(true)));
    }
    return Err(UnexpectedToken(t.span));
  }

  /** The text of a name token; the source's `Name` refuses a missing value. */
  function NameText(t: Token): Result<string, CompilerError> {
    match t.value
    case None => Err(TypeError)
    case Some(text) => Ok(text)
  }

  /** `parse_factor`: a group, a list, a name or a scalar. */
  method ParseFactor(stream: Stream) returns (r: Result<Node, CompilerError>)
    requires stream.Valid()
    modifies stream
    ensures stream.Valid() && old(stream.pos) <= stream.pos
    ensures r.Ok? ==> old(stream.pos) < stream.pos
    ensures old(stream.Peek({NameTok})) && old(stream.Preview()).value.value.Some? ==>
              r == Ok(Name(old(stream.Preview()).value.value.value)) && stream.pos == old(stream.pos) + 1
    ensures !old(stream.Peek({Lparen, Lbracket, NameTok})) ==>
              r.Ok? ==> r.value.Scalar?
    ensures old(stream.pos) < |stream.tokens| && stream.tokens[old(stream.pos)].kind !in FactorStarters ==>
              r == Err(UnexpectedToken(stream.tokens[old(stream.pos)].span)) && stream.pos == old(stream.pos)
    decreases |stream.tokens| - stream.pos, 3
  {
    if stream.Peek({Lparen}) {
      r := ParseGroup(stream);
      return;
    }
    if stream.Peek({Lbracket}) {
      r := ParseList(stream);
      return;
    }
    if stream.Peek({NameTok}) {
      var token := stream.Consume({NameTok});
      var text :- NameText(token.value);
      return Ok(Name(text));
    }
    r := ParseScalar(stream);
  }

  /** `parse_group`: `()` is the unit, and `(e)` is `e` itself with no node
      around it. */
  method ParseGroup(stream: Stream) returns (r: Result<Node, CompilerError>)
    requires stream.Valid()
    modifies stream
    ensures stream.Valid() && old(stream.pos) <= stream.pos
    ensures r.Ok? ==> old(stream.pos) < stream.pos && stream.tokens[stream.pos - 1].kind == Rparen
    ensures old(stream.pos) + 1 < |stream.tokens| && stream.tokens[old(stream.pos)].kind == Lparen
            && stream.tokens[old(stream.pos) + 1].kind == Rparen ==>
              r == Ok(Unit) && stream.pos == old(stream.pos) + 2
    ensures KindAt(stream.tokens, old(stream.pos), Lparen) && IsNameAt(stream.tokens, old(stream.pos) + 1)
            && KindAt(stream.tokens, old(stream.pos) + 2, Rparen) ==>
              r == Ok(NameAt(stream.tokens, old(stream.pos) + 1)) && stream.pos == old(stream.pos) + 3
    ensures r.Ok? ==> KindAt(stream.tokens, old(stream.pos), Lparen)
    decreases |stream.tokens| - stream.pos, 2
  {
    var _ :- stream.Consume({Lparen});
    if stream.Peek({Rparen}) {
      var _ := stream.Consume({Rparen});
      return Ok(Unit);
    }
    var expr :- ParseExpr(stream, Precedence(Let) + 1);
    var _ :- stream.Consume({Rparen});
    return Ok(expr);
  }

  /** `parse_list`: comma-separated expressions between brackets. */
  method ParseList(stream: Stream) returns (r: Result<Node, CompilerError>)
    requires stream.Valid()
    modifies stream
    ensures stream.Valid() && old(stream.pos) <= stream.pos
    ensures r.Ok? ==> old(stream.pos) < stream.pos && r.value.List?
    ensures r.Ok? ==> stream.tokens[stream.pos - 1].kind == Rbracket
    ensures r.Ok? ==> KindAt(stream.tokens, old(stream.pos), Lbracket)
    ensures KindAt(stream.tokens, old(stream.pos), Lbracket) && KindAt(stream.tokens, old(stream.pos) + 1, Rbracket) ==>
              r == Ok(List([])) && stream.pos == old(stream.pos) + 2
    ensures KindAt(stream.tokens, old(stream.pos), Lbracket) && SingleNameAt(stream.tokens, old(stream.pos) + 1)
            && KindAt(stream.tokens, old(stream.pos) + 2, Rbracket) ==>
              r == Ok(List([NameAt(stream.tokens, old(stream.pos) + 1)])) && stream.pos == old(stream.pos) + 3
    decreases |stream.tokens| - stream.pos, 2
  {
    var _ :- stream.Consume({Lbracket});
    var elements :- ParseListItems(stream);
    return Ok(List(elements));
  }

  /** The loop of `parse_list` and its closing bracket: the elements. */
  method ParseListItems(stream: Stream) returns (r: Result<seq<Node>, CompilerError>)
    requires stream.Valid()
    modifies stream
    ensures stream.Valid() && old(stream.pos) <= stream.pos
    ensures r.Ok? ==> old(stream.pos) < stream.pos && stream.tokens[stream.pos - 1].kind == Rbracket
    ensures KindAt(stream.tokens, old(stream.pos), Rbracket) ==> r == Ok([]) && stream.pos == old(stream.pos) + 1
    ensures SingleNameAt(stream.tokens, old(stream.pos)) && KindAt(stream.tokens, old(stream.pos) + 1, Rbracket) ==>
              r == Ok([NameAt(stream.tokens, old(stream.pos))]) && stream.pos == old(stream.pos) + 2
    decreases |stream.tokens| - stream.pos, 7
  {
    ghost var start := stream.pos;
    ghost var short := KindAt(stream.tokens, start, Rbracket)
                       || (SingleNameAt(stream.tokens, start) && KindAt(stream.tokens, start + 1, Rbracket));
    var elements: seq<Node> := [];
    while !stream.Peek({Rbracket})
      invariant stream.Valid() && start <= stream.pos
      invariant short ==> elements == [] && stream.pos == start
      decreases |stream.tokens| - stream.pos
    {
      var element :- ParseExpr(stream, Precedence(Comma));
      elements := elements + [element];
      assert short ==> elements == [NameAt(stream.tokens, start)] && stream.pos == start + 1;
      var more := stream.ConsumeIf({Comma});
      if !more {
        break;
      }
    }
    var _ :- stream.Consume({Rbracket});
    return Ok(elements);
  }

  /** `parse_apply`: a factor, applied to one more factor if one follows. The
      source's loop, bounded by MAX_APPLICATIONS, returns in its first turn
      whatever happens, so one call makes exactly one attempt at an argument
      and builds at most one application; an argument that fails with
      UnexpectedTokenError is dropped and the function alone is returned. */
  method ParseApply(stream: Stream) returns (r: Result<Node, CompilerError>)
    requires stream.Valid()
    modifies stream
    ensures stream.Valid() && old(stream.pos) <= stream.pos
    ensures r.Ok? ==> old(stream.pos) < stream.pos
    ensures (IsNameAt(stream.tokens, old(stream.pos)) && old(stream.pos) + 1 < |stream.tokens|
             && stream.tokens[old(stream.pos) + 1].kind !in FactorStarters) ==>
              r == Ok(Name(stream.tokens[old(stream.pos)].value.value)) && stream.pos == old(stream.pos) + 1
    ensures IsNameAt(stream.tokens, old(stream.pos)) && IsNameAt(stream.tokens, old(stream.pos) + 1) ==>
              r == Ok(Apply(Name(stream.tokens[old(stream.pos)].value.value),
                            Name(stream.tokens[old(stream.pos) + 1].value.value)))
              && stream.pos == old(stream.pos) + 2
    decreases |stream.tokens| - stream.pos, 4
  {
    var result :- ParseFactor(stream);
    var arg := ParseFactor(stream);
    match arg
    case Ok(node) => return Ok(Apply(result, node));
    case Err(UnexpectedToken(_)) => return Ok(result);
    case Err(error) => return Err(error);
  }

  /** The kinds a factor can start with. */
  const FactorStarters: set<Kind> := {Lparen, Lbracket, NameTok} + ScalarKinds

  /** A name token with its text at index `i`. */
  predicate IsNameAt(tokens: seq<Token>, i: nat) {
    i < |tokens| && tokens[i].kind == NameTok && tokens[i].value.Some?
  }

  /** Kinds that end an expression wherever they follow it: no factor starts
      with them and no infix parser is registered for them. */
  predicate IsCloser(kind: Kind) {
    kind.Arrow? || kind.Else? || kind.End? || kind.Eof? || kind.Eol? || kind.Pipe?
    || kind.Rbracket? || kind.Rparen? || kind.Then?
  }

  /** A name at index `i` that makes up a whole expression: a closing token
      follows it. */
  predicate SingleNameAt(tokens: seq<Token>, i: nat) {
    IsNameAt(tokens, i) && i + 1 < |tokens| && IsCloser(tokens[i + 1].kind)
  }

  /** The name node of the name token at index `i`. */
  function NameAt(tokens: seq<Token>, i: nat): Node
    requires IsNameAt(tokens, i)
  {
    Name(tokens[i].value.value)
  }

  /** The free-name pattern of the name token at index `i`. */
  function FreeNameAt(tokens: seq<Token>, i: nat): Pattern
    requires IsNameAt(tokens, i)
  {
    FreeName(tokens[i].value.value)
  }

  /** Token `i` exists and has the given kind. */
  predicate KindAt(tokens: seq<Token>, i: nat, kind: Kind) {
    i < |tokens| && tokens[i].kind == kind
  }

  /** `parse_expr`: a prefix parser chosen by the first token (`parse_apply`
      when none is registered), then infix parsers for as long as the next
      token binds tighter than `precedence`. */
  method ParseExpr(stream: Stream, precedence: int) returns (r: Result<Node, CompilerError>)
    requires stream.Valid()
    modifies stream
    ensures stream.Valid() && old(stream.pos) <= stream.pos
    ensures r.Ok? ==> old(stream.pos) < stream.pos
    ensures old(stream.pos) == |stream.tokens| ==> r == Err(UnexpectedEOF)
    ensures r.Ok? ==> StopsAt(stream.Preview(), precedence)
    ensures SingleNameAt(stream.tokens, old(stream.pos)) ==>
              r == Ok(NameAt(stream.tokens, old(stream.pos))) && stream.pos == old(stream.pos) + 1
    decreases |stream.tokens| - stream.pos, 6
  {
    if !stream.NonEmpty() {
      return Err(UnexpectedEOF);
    }
    ghost var start := stream.pos;
    ghost var single := SingleNameAt(stream.tokens, start);
    var result :- ParsePrefix(stream);
    var op := stream.Preview();
    while op.Some? && Precedence(op.value.kind) > precedence
      invariant stream.Valid() && start < stream.pos
      invariant op == stream.Preview()
      invariant single ==> result == NameAt(stream.tokens, start) && stream.pos == start + 1
      decreases |stream.tokens| - stream.pos
    {
      if !HasInfixParser(op.value.kind) {
        break;
      }
      if op.value.kind == Comma {
        result :- ParsePair(stream, result);
      } else {
        result :- InfixOp(stream, op.value.kind, result);
      }
      op := stream.Preview();
    }
    return Ok(result);
  }

  /** The prefix parser `parse_expr` picks for the first token: the one
      registered in `prefix_parsers`, or `parse_apply`. */
  method ParsePrefix(stream: Stream) returns (r: Result<Node, CompilerError>)
    requires stream.Valid() && stream.NonEmpty()
    modifies stream
    ensures stream.Valid() && old(stream.pos) <= stream.pos
    ensures r.Ok? ==> old(stream.pos) < stream.pos
    ensures r.Ok? && old(stream.Peek({If})) ==> r.value.Cond?
    ensures r.Ok? && old(stream.Peek({Bslash})) ==> r.value.Function?
    ensures r.Ok? && old(stream.Peek({Let})) ==> r.value.Define?
    ensures r.Ok? && old(stream.Peek({Dash})) ==> r.value.Apply? && r.value.func == Name("~")
    ensures r.Ok? && old(stream.Peek({Kind.Match})) ==> r.value.Match?
    ensures IsNameAt(stream.tokens, old(stream.pos)) && old(stream.pos) + 1 < |stream.tokens|
            && stream.tokens[old(stream.pos) + 1].kind !in FactorStarters ==>
              r == Ok(NameAt(stream.tokens, old(stream.pos))) && stream.pos == old(stream.pos) + 1
    decreases |stream.tokens| - stream.pos, 5
  {
    match stream.tokens[stream.pos].kind {
      case If => r := ParseIf(stream);
      case Bslash => r := ParseFunc(stream);
      case Let => var define, _, _ := ParseDefine(stream); r := define;
      case Dash => r := ParseNegate(stream);
      case Match => var m, _, _ := ParseMatch(stream); r := m;
      case _ => r := ParseApply(stream);
    }
  }

  /** The step the prefix and infix parsers share: consume a token of the
      given kind, then parse the expression after it at `precedence`. */
  method ParseAfter(stream: Stream, kind: Kind, precedence: int) returns (r: Result<Node, CompilerError>)
    requires stream.Valid()
    modifies stream
    ensures stream.Valid() && old(stream.pos) <= stream.pos
    ensures r.Ok? ==> KindAt(stream.tokens, old(stream.pos), kind) && old(stream.pos) + 1 < stream.pos
    ensures r.Ok? ==> StopsAt(stream.Preview(), precedence)
    ensures KindAt(stream.tokens, old(stream.pos), kind) && SingleNameAt(stream.tokens, old(stream.pos) + 1) ==>
              r == Ok(NameAt(stream.tokens, old(stream.pos) + 1)) && stream.pos == old(stream.pos) + 2
    decreases |stream.tokens| - stream.pos, 3
  {
    var _ :- stream.Consume({kind});
    r := ParseExpr(stream, precedence);
  }

  /** `_infix_op`: `left op right` becomes `Apply(Apply(Name op, left), right)`,
      the right operand parsed at the operator's right precedence. */
  method InfixOp(stream: Stream, kind: Kind, left: Node) returns (r: Result<Node, CompilerError>)
    requires stream.Valid() && OperatorName(kind).Some?
    modifies stream
    ensures stream.Valid() && old(stream.pos) <= stream.pos
    ensures r.Ok? ==> old(stream.pos) < stream.pos
    ensures r.Ok? ==> r.value.Apply? && r.value.func == Apply(Name(OperatorName(kind).value), left)
    ensures r.Ok? ==> StopsAt(stream.Preview(), RightPrecedence(kind))
    ensures KindAt(stream.tokens, old(stream.pos), kind) && SingleNameAt(stream.tokens, old(stream.pos) + 1) ==>
              r == Ok(Apply(Apply(Name(OperatorName(kind).value), left), NameAt(stream.tokens, old(stream.pos) + 1)))
    decreases |stream.tokens| - stream.pos, 4
  {
    var right :- ParseAfter(stream, kind, RightPrecedence(kind));
    return Ok(Apply(Apply(Name(OperatorName(kind).value), left), right));
  }

  /** `parse_pair`: the right side is parsed just below the comma's
      precedence, so it swallows any further commas and pairs nest to the
      right. */
  method ParsePair(stream: Stream, left: Node) returns (r: Result<Node, CompilerError>)
    requires stream.Valid()
    modifies stream
    ensures stream.Valid() && old(stream.pos) <= stream.pos
    ensures r.Ok? ==> old(stream.pos) < stream.pos
    ensures r.Ok? ==> r.value.Pair? && r.value.first == left
    ensures r.Ok? ==> !stream.Peek({Comma})
    ensures KindAt(stream.tokens, old(stream.pos), Comma) && SingleNameAt(stream.tokens, old(stream.pos) + 1) ==>
              r == Ok(Pair(left, NameAt(stream.tokens, old(stream.pos) + 1)))
    decreases |stream.tokens| - stream.pos, 4
  {
    var right :- ParseAfter(stream, Comma, Precedence(Comma) - 1);
    return Ok(Pair(left, right));
  }

  /** `parse_negate`: `-e` becomes `Apply(Name "~", e)`, with `e` parsed at the
      precedence of `~`, above every binary operator. */
  method ParseNegate(stream: Stream) returns (r: Result<Node, CompilerError>)
    requires stream.Valid()
    modifies stream
    ensures stream.Valid() && old(stream.pos) <= stream.pos
    ensures r.Ok? ==> old(stream.pos) < stream.pos
    ensures r.Ok? ==> r.value.Apply? && r.value.func == Name("~")
    ensures r.Ok? ==> StopsAt(stream.Preview(), Precedence(Tilde))
    ensures KindAt(stream.tokens, old(stream.pos), Dash) && SingleNameAt(stream.tokens, old(stream.pos) + 1) ==>
              r == Ok(Apply(Name("~"), NameAt(stream.tokens, old(stream.pos) + 1)))
    decreases |stream.tokens| - stream.pos, 4
  {
    var operand :- ParseAfter(stream, Dash, Precedence(Tilde));
    return Ok(Apply(Name("~"), operand));
  }

  /** `parse_if`: `if p then c else e`, each part at the precedence of `if`. */
  method ParseIf(stream: Stream) returns (r: Result<Node, CompilerError>)
    requires stream.Valid()
    modifies stream
    ensures stream.Valid() && old(stream.pos) <= stream.pos
    ensures r.Ok? ==> old(stream.pos) < stream.pos && r.value.Cond?
    ensures r.Ok? ==> KindAt(stream.tokens, old(stream.pos), If)
    ensures var p := old(stream.pos);
            KindAt(stream.tokens, p, If) && IsNameAt(stream.tokens, p + 1) && KindAt(stream.tokens, p + 2, Then)
            && IsNameAt(stream.tokens, p + 3) && KindAt(stream.tokens, p + 4, Else)
            && SingleNameAt(stream.tokens, p + 5) ==>
              r == Ok(Cond(NameAt(stream.tokens, p + 1), NameAt(stream.tokens, p + 3), NameAt(stream.tokens, p + 5)))
    decreases |stream.tokens| - stream.pos, 4
  {
    var pred :- ParseAfter(stream, If, Precedence(If));
    var cons :- ParseAfter(stream, Then, Precedence(If));
    var elseBranch :- ParseAfter(stream, Else, Precedence(If));
    return Ok(Cond(pred, cons, elseBranch));
  }

  /** `parse_func`: `\ pattern -> body`. */
  method ParseFunc(stream: Stream) returns (r: Result<Node, CompilerError>)
    requires stream.Valid()
    modifies stream
    ensures stream.Valid() && old(stream.pos) <= stream.pos
    ensures r.Ok? ==> old(stream.pos) < stream.pos && r.value.Function?
    ensures r.Ok? ==> KindAt(stream.tokens, old(stream.pos), Bslash)
    ensures var p := old(stream.pos);
            KindAt(stream.tokens, p, Bslash) && IsNameAt(stream.tokens, p + 1) && KindAt(stream.tokens, p + 2, Arrow)
            && SingleNameAt(stream.tokens, p + 3) ==>
              r == Ok(Function(FreeNameAt(stream.tokens, p + 1), NameAt(stream.tokens, p + 3)))
    decreases |stream.tokens| - stream.pos, 4
  {
    var _ :- stream.Consume({Bslash});
    var param :- ParsePattern(stream);
    var body :- ParseAfter(stream, Arrow, Precedence(Bslash));
    return Ok(Function(param, body));
  }

  /** `parse_define`: `let target = value`, `let target := block end`, and
      `let f param = value`, which defines `f` as `Function(param, value)`. */
  method ParseDefine(stream: Stream) returns (r: Result<Node, CompilerError>, param: Option<Pattern>, value: Node)
    requires stream.Valid()
    modifies stream
    ensures stream.Valid() && old(stream.pos) <= stream.pos
    ensures r.Ok? ==> old(stream.pos) < stream.pos && r.value.Define?
    ensures r.Ok? && param.None? ==> r.value.value == value
    ensures r.Ok? && param.Some? ==> r.value.value == Function(param.value, value)
    ensures r.Ok? && param.Some? ==> r.value.target.FreeName?
    decreases |stream.tokens| - stream.pos, 4
  {
    param, value := None, Unit;
    var _ :- stream.Consume({Let});
    var target: Pattern;
    if stream.Peek({NameTok}) {
      var token := stream.Consume({NameTok});
      var text :- NameText(token.value);
      target := FreeName(text);
      if !stream.Peek({ColonEqual, Equal}) {
        var p :- ParsePattern(stream);
        param := Some(p);
      }
    } else {
      target :- ParsePattern(stream);
    }
    var isBlock := stream.ConsumeIf({ColonEqual});
    if isBlock {
      var block, _ := ParseBlock(stream, {End});
      value :- block;
    } else {
      var _ :- stream.Consume({Equal});
      value :- ParseExpr(stream, Precedence(Let));
    }
    if param.None? {
      return Ok(Define(target, value)), param, value;
    }
    return Ok(Define(target, Function(param.value, value))), param, value;
  }

  /** `parse_match`: a subject and one or more `| pattern -> expr` arms; a
      match without arms is an UnexpectedTokenError at the token after the
      subject. */
  method ParseMatch(stream: Stream) returns (r: Result<Node, CompilerError>, ghost arms: nat, ghost afterSubject: Option<nat>)
    requires stream.Valid()
    modifies stream
    ensures stream.Valid() && old(stream.pos) <= stream.pos
    ensures r.Ok? ==> old(stream.pos) < stream.pos
    ensures r.Ok? ==> r.value.Match? && |r.value.cases| == arms && arms >= 1
    ensures afterSubject.None? ==> r.Err? && arms == 0
    ensures afterSubject.Some? ==> KindAt(stream.tokens, old(stream.pos), Kind.Match)
                                   && old(stream.pos) + 1 < afterSubject.value <= |stream.tokens|
    ensures afterSubject.Some? ==> (arms >= 1 <==> KindAt(stream.tokens, afterSubject.value, Pipe))
    ensures afterSubject.Some? && arms == 0 ==>
              r == (if afterSubject.value < |stream.tokens|
                    then Err(UnexpectedToken(stream.tokens[afterSubject.value].span))
                    else Err(UnexpectedEOF))
    decreases |stream.tokens| - stream.pos, 4
  {
    arms, afterSubject := 0, None;
    var _ :- stream.Consume({Kind.Match});
    var subject :- ParseExpr(stream, Precedence(Kind.Match));
    afterSubject := Some(stream.pos);
    var cases: seq<Arm> := [];
    while true
      invariant stream.Valid() && old(stream.pos) < stream.pos
      invariant arms == |cases|
      invariant arms == 0 ==> stream.pos == afterSubject.value
      invariant arms >= 1 ==> KindAt(stream.tokens, afterSubject.value, Pipe)
      decreases |stream.tokens| - stream.pos
    {
      var more := stream.ConsumeIf({Pipe});
      if !more {
        break;
      }
      arms := arms + 1;
      var pattern :- ParsePattern(stream);
      var _ :- stream.Consume({Arrow});
      var cons :- ParseExpr(stream, Precedence(Kind.Match));
      cases := cases + [Arm(pattern, cons)];
    }
    if cases != [] {
      return Ok(Node.Match(subject, cases)), arms, afterSubject;
    }
    var next :- stream.Next();
    return Err(UnexpectedToken(next.span)), arms, afterSubject;
  }

  /** `parse_block`: expressions, each followed by an `eol`, up to one of the
      expected closing kinds or the end of the stream. No expression gives
      the unit, one gives that expression, more give a block. */
  method ParseBlock(stream: Stream, expectedEnds: set<Kind>) returns (r: Result<Node, CompilerError>, exprs: seq<Node>)
    requires stream.Valid()
    modifies stream
    ensures stream.Valid() && old(stream.pos) <= stream.pos
    ensures expectedEnds == {} ==> r == Err(ValueError)
    ensures r.Ok? ==> (exprs == [] ==> r.value == Unit)
    ensures r.Ok? ==> (|exprs| == 1 ==> r.value == exprs[0])
    ensures r.Ok? ==> (|exprs| >= 2 ==> r.value == Block(exprs))
    decreases |stream.tokens| - stream.pos, 7
  {
    exprs := [];
    if expectedEnds == {} {
      return Err(ValueError), exprs;
    }
    while stream.NonEmpty()
      invariant stream.Valid() && old(stream.pos) <= stream.pos
      decreases |stream.tokens| - stream.pos
    {
      var closed := stream.ConsumeIf(expectedEnds);
      if closed {
        break;
      }
      var expr := ParseExpr(stream, 0);
      if expr.Err? {
        return Err(expr.error), exprs;
      }
      exprs := exprs + [expr.value];
      var eol := stream.Consume({Eol});
      if eol.Err? {
        return Err(eol.error), exprs;
      }
    }
    if exprs == [] {
      return Ok(Unit), exprs;
    }
    if |exprs| == 1 {
      return Ok(exprs[0]), exprs;
    }
    return Ok(Block(exprs)), exprs;
  }

  /** `parse_pattern`: a factor pattern, or two joined by a comma into a
      right-nested pair pattern. */
  method ParsePattern(stream: Stream) returns (r: Result<Pattern, CompilerError>)
    requires stream.Valid()
    modifies stream
    ensures stream.Valid() && old(stream.pos) <= stream.pos
    ensures r.Ok? ==> old(stream.pos) < stream.pos
    ensures IsNameAt(stream.tokens, old(stream.pos)) && !KindAt(stream.tokens, old(stream.pos) + 1, Comma) ==>
              r == Ok(FreeNameAt(stream.tokens, old(stream.pos))) && stream.pos == old(stream.pos) + 1
    ensures IsNameAt(stream.tokens, old(stream.pos)) && KindAt(stream.tokens, old(stream.pos) + 1, Comma) ==>
              r.Ok? ==> r.value.PairPattern? && r.value.first == FreeNameAt(stream.tokens, old(stream.pos))
    decreases |stream.tokens| - stream.pos, 3
  {
    var left :- ParseFactorPattern(stream);
    var more := stream.ConsumeIf({Comma});
    if more {
      var right :- ParsePattern(stream);
      return Ok(PairPattern(left, right));
    }
    return Ok(left);
  }

  /** `parse_factor_pattern`: a list pattern, a scalar, a free name, a pinned
      `^name`, or a parenthesised pattern, where `()` is the unit pattern. */
  method ParseFactorPattern(stream: Stream) returns (r: Result<Pattern, CompilerError>)
    requires stream.Valid()
    modifies stream
    ensures stream.Valid() && old(stream.pos) <= stream.pos
    ensures r.Ok? ==> old(stream.pos) < stream.pos
    ensures IsNameAt(stream.tokens, old(stream.pos)) ==>
              r == Ok(FreeNameAt(stream.tokens, old(stream.pos))) && stream.pos == old(stream.pos) + 1
    ensures KindAt(stream.tokens, old(stream.pos), Caret) && IsNameAt(stream.tokens, old(stream.pos) + 1) ==>
              r == Ok(PinnedName(stream.tokens[old(stream.pos) + 1].value.value))
    ensures old(stream.pos) < |stream.tokens| && stream.tokens[old(stream.pos)].kind in ScalarKinds ==>
              r.Ok? ==> r.value.ScalarPattern?
    ensures KindAt(stream.tokens, old(stream.pos), Lparen) && IsNameAt(stream.tokens, old(stream.pos) + 1)
            && KindAt(stream.tokens, old(stream.pos) + 2, Rparen) ==>
              r == Ok(FreeNameAt(stream.tokens, old(stream.pos) + 1))
    ensures (old(stream.pos) + 1 < |stream.tokens| && stream.tokens[old(stream.pos)].kind == Lparen
             && stream.tokens[old(stream.pos) + 1].kind == Rparen) ==> r == Ok(UnitPattern)
    ensures old(stream.pos) < |stream.tokens| &&
            stream.tokens[old(stream.pos)].kind !in {Lbracket, NameTok, Caret, Lparen} + ScalarKinds ==>
              r == Err(UnexpectedToken(stream.tokens[old(stream.pos)].span))
    decreases |stream.tokens| - stream.pos, 2
  {
    if stream.Peek({Lbracket}) {
      r := ParseListPattern(stream);
      return;
    }
    if stream.Peek(ScalarKinds) {
      r := ParseScalarPattern(stream);
      return;
    }
    if stream.Peek({NameTok}) {
      var token := stream.Consume({NameTok});
      var text :- NameText(token.value);
      return Ok(FreeName(text));
    }
    var pinned := stream.ConsumeIf({Caret});
    if pinned {
      var token :- stream.Consume({NameTok});
      var text :- NameText(token);
      return Ok(PinnedName(text));
    }
    if stream.Peek({Lparen}) {
      r := ParseGroupPattern(stream);
      return;
    }
    var next := stream.Preview();
    if next.None? {
      return Err(UnexpectedEOF);
    }
    return Err(UnexpectedToken(next.value.span));
  }

  /** The scalar branch of `parse_factor_pattern`: the scalar `parse_scalar`
      reads, as a pattern. */
  method ParseScalarPattern(stream: Stream) returns (r: Result<Pattern, CompilerError>)
    requires stream.Valid() && stream.Peek(ScalarKinds)
    modifies stream
    ensures stream.Valid() && stream.pos == old(stream.pos) + 1
    ensures r == ScalarPatternOf(stream.tokens[old(stream.pos)])
  {
    var node :- ParseScalar(stream);
    return Ok(ScalarPattern(node.scalar));
  }

  /** The parenthesised branch of `parse_factor_pattern`: `()` is the unit
      pattern and `(p)` is `p` itself. */
  method ParseGroupPattern(stream: Stream) returns (r: Result<Pattern, CompilerError>)
    requires stream.Valid() && stream.Peek({Lparen})
    modifies stream
    ensures stream.Valid() && old(stream.pos) < stream.pos
    ensures KindAt(stream.tokens, old(stream.pos) + 1, Rparen) ==> r == Ok(UnitPattern)
    ensures IsNameAt(stream.tokens, old(stream.pos) + 1) && KindAt(stream.tokens, old(stream.pos) + 2, Rparen) ==>
              r == Ok(FreeNameAt(stream.tokens, old(stream.pos) + 1))
    decreases |stream.tokens| - stream.pos, 1
  {
    var _ := stream.Consume({Lparen});
    var pattern: Option<Pattern> := None;
    if !stream.Peek({Rparen}) {
      var p :- ParsePattern(stream);
      pattern := Some(p);
    }
    var _ :- stream.Consume({Rparen});
    return Ok(if pattern.Some? then pattern.value else UnitPattern);
  }

  /** `parse_list_pattern`: comma-separated patterns between brackets,
      optionally ended by `..rest`. */
  method ParseListPattern(stream: Stream) returns (r: Result<Pattern, CompilerError>)
    requires stream.Valid()
    modifies stream
    ensures stream.Valid() && old(stream.pos) <= stream.pos
    ensures r.Ok? ==> old(stream.pos) < stream.pos && r.value.ListPattern?
    ensures r.Ok? ==> KindAt(stream.tokens, old(stream.pos), Lbracket)
    ensures KindAt(stream.tokens, old(stream.pos), Lbracket) && KindAt(stream.tokens, old(stream.pos) + 1, Rbracket) ==>
              r == Ok(ListPattern([], None))
    ensures var p := old(stream.pos);
            KindAt(stream.tokens, p, Lbracket) && KindAt(stream.tokens, p + 1, Ellipsis) && IsNameAt(stream.tokens, p + 2)
            && KindAt(stream.tokens, p + 3, Rbracket) ==>
              r == Ok(ListPattern([], Some(stream.tokens[p + 2].value.value)))
    ensures var p := old(stream.pos);
            KindAt(stream.tokens, p, Lbracket) && IsNameAt(stream.tokens, p + 1) && KindAt(stream.tokens, p + 2, Rbracket) ==>
              r == Ok(ListPattern([FreeNameAt(stream.tokens, p + 1)], None))
    decreases |stream.tokens| - stream.pos, 1
  {
    var _ :- stream.Consume({Lbracket});
    var items :- ParseListPatternItems(stream);
    var _ :- stream.Consume({Rbracket});
    return Ok(ListPattern(items.0, items.1));
  }

  /** The loop of `parse_list_pattern`: the initial patterns and the rest
      name, up to the closing bracket. */
  method ParseListPatternItems(stream: Stream) returns (r: Result<(seq<Pattern>, Option<string>), CompilerError>)
    requires stream.Valid()
    modifies stream
    ensures stream.Valid() && old(stream.pos) <= stream.pos
    ensures KindAt(stream.tokens, old(stream.pos), Rbracket) ==> r == Ok(([], None)) && stream.pos == old(stream.pos)
    ensures var p := old(stream.pos);
            KindAt(stream.tokens, p, Ellipsis) && IsNameAt(stream.tokens, p + 1) ==>
              r == Ok(([], Some(stream.tokens[p + 1].value.value))) && stream.pos == p + 2
    ensures var p := old(stream.pos);
            IsNameAt(stream.tokens, p) && KindAt(stream.tokens, p + 1, Rbracket) ==>
              r == Ok(([FreeNameAt(stream.tokens, p)], None)) && stream.pos == p + 1
    decreases |stream.tokens| - stream.pos, 3
  {
    ghost var start := stream.pos;
    ghost var empty := KindAt(stream.tokens, start, Rbracket);
    ghost var onlyRest := KindAt(stream.tokens, start, Ellipsis) && IsNameAt(stream.tokens, start + 1);
    ghost var single := IsNameAt(stream.tokens, start) && KindAt(stream.tokens, start + 1, Rbracket);
    var rest: Option<string> := None;
    var initials: seq<Pattern> := [];
    while !stream.Peek({Rbracket})
      invariant stream.Valid() && start <= stream.pos
      invariant empty || onlyRest || single ==> stream.pos == start && initials == [] && rest.None?
      decreases |stream.tokens| - stream.pos
    {
      if stream.Peek({Ellipsis}) {
        var text :- ParseRestName(stream);
        rest := Some(text);
        assert onlyRest ==> rest == Some(stream.tokens[start + 1].value.value) && stream.pos == start + 2;
        break;
      }
      var initial :- ParseFactorPattern(stream);
      initials := initials + [initial];
      assert single ==> initials == [FreeNameAt(stream.tokens, start)] && stream.pos == start + 1;
      var more := stream.ConsumeIf({Comma});
      if !more {
        break;
      }
    }
    return Ok((initials, rest));
  }

  /** The `..rest` ending of `parse_list_pattern`: the ellipsis and the name
      after it. */
  method ParseRestName(stream: Stream) returns (r: Result<string, CompilerError>)
    requires stream.Valid() && stream.Peek({Ellipsis})
    modifies stream
    ensures stream.Valid() && old(stream.pos) < stream.pos
    ensures r.Ok? ==> IsNameAt(stream.tokens, old(stream.pos) + 1) && stream.pos == old(stream.pos) + 2
                      && r.value == stream.tokens[old(stream.pos) + 1].value.value
    ensures IsNameAt(stream.tokens, old(stream.pos) + 1) ==> r.Ok?
  {
    var _ := stream.Next();
    var nameToken :- stream.Consume({NameTok});
    var text :- NameText(nameToken);
    return Ok(text);
  }

  /** `parse_stmt`: a definition, or an expression at the lowest precedence
      that a `::` may not follow. */
  method ParseStmt(stream: Stream) returns (r: Result<Node, CompilerError>)
    requires stream.Valid()
    modifies stream
    ensures stream.Valid() && old(stream.pos) <= stream.pos
    ensures r.Ok? ==> old(stream.pos) < stream.pos
    ensures r.Ok? ==> !stream.Peek({DoubleColon})
    decreases |stream.tokens| - stream.pos, 8
  {
    if stream.Peek({Let}) {
      var define, _, _ := ParseDefine(stream);
      var node :- define;
      if stream.Peek({DoubleColon}) {
        var next := stream.Next();
        return Err(UnexpectedToken(next.value.span));
      }
      return Ok(node);
    }
    var left :- ParseExpr(stream, -10);
    if stream.Peek({DoubleColon}) {
      var next := stream.Next();
      return Err(UnexpectedToken(next.value.span));
    }
    return Ok(left);
  }

  /** `parse`: statements, each followed by an `eol`, until the tokens run
      out. No statement gives the unit, one gives that statement, more give
      a block. */
  method Parse(stream: Stream) returns (r: Result<Node, CompilerError>, stmts: seq<Node>)
    requires stream.Valid()
    modifies stream
    ensures stream.Valid()
    ensures r.Ok? ==> !stream.NonEmpty()
    ensures r.Ok? ==> (stmts == [] ==> r.value == Unit)
    ensures r.Ok? ==> (|stmts| == 1 ==> r.value == stmts[0])
    ensures r.Ok? ==> (|stmts| >= 2 ==> r.value == Block(stmts))
    ensures old(stream.pos) == |stream.tokens| ==> r == Ok(Unit)
  {
    stmts := [];
    while stream.NonEmpty()
      invariant stream.Valid() && old(stream.pos) <= stream.pos
      invariant old(stream.pos) == |stream.tokens| ==> stmts == []
      decreases |stream.tokens| - stream.pos
    {
      var stmt := ParseStmt(stream);
      if stmt.Err? {
        return Err(stmt.error), stmts;
      }
      stmts := stmts + [stmt.value];
      var eol := stream.Consume({Eol});
      if eol.Err? {
        return Err(eol.error), stmts;
      }
    }
    if stmts == [] {
      return Ok(Unit), stmts;
    }
    if |stmts| == 1 {
      return Ok(stmts[0]), stmts;
    }
    return Ok(Block(stmts)), stmts;
  }
}
