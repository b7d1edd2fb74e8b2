# A verified model of the Hanno compiler core

Hanno compiles a small expression-oriented functional language to bytecode.
This project models, in Dafny, the semantic core of its pipeline:

- **Front end** (`lexer.dfy`, `eol_inference.dfy`, `preprocessing.dfy`, `parse.dfy`).
  - The index-driven scanners and the pushback `TokenStream` of the lexer.
  - The inference that turns newline-bearing whitespace into `eol` tokens.
  - Newline normalisation.
  - The precedence-climbing parser, which runs over a cursor on a token sequence.
- **Trees and types** (`ast.dfy`, `types.dfy`, `scope.dfy`, `errors.dfy`, `visitors.dfy`).
  - The surface syntax tree and its patterns, with their Python equality rules.
  - The type language, with `TypeVar` equality ignoring names and substitutions keyed by name.
  - The chained `Scope` class.
  - Span merging and the error pointer.
  - The abstract visitor base classes, and which subclasses Python can build.
- **Type inference** (`unify.dfy`, `unifier.dfy`, `inference.dfy`).
  - Unification with the occurs check, as written (`unify.dfy`) and as intended, under the substitution found so far (`unifier.dfy`).
  - Merging of substitutions, substitution, instantiation and generalisation.
  - The types of patterns.
  - The constraint generator, a class that appends equations and swaps scopes.
  - The substitution of solved types back into the tree.
- **Checks and passes on the surface tree** (`exhaustiveness.dfy`, `ast_sorter.dfy`, `string_expander.dfy`).
  - The refutable-pattern checker.
  - The topological block sorter, using Kahn's algorithm on a dependency graph.
  - The string-escape expander.
- **Lowering** (`lowered.dfy`, `simplifier.dfy`, `constant_folder.dfy`, `inline_expander.dfy`).
  - The lowered tree.
  - The simplifier, with decision trees for `match` and the decomposition of irrefutable patterns.
  - Constant folding over integers, booleans and strings.
  - Inline expansion, with its scorer, finder, inliner and replacer.
- **Back end** (`instruction_generator.dfy`, `codegen.dfy`, `compressor.dfy`, `disassemble.dfy`).
  - The instruction generator, a class numbering name slots per scope.
  - The 8-byte instruction encoding and the length-prefixed pools.
  - The header.
  - The run-length compressor.
  - The decoders of the disassembler, which give the round trips.
- **Shared helpers** (`wrappers.dfy`, `bytes.dfy`, `text.dfy`, `tokens.dfy`, `slices.dfy`).
  - `Option`/`Result`.
  - Big-endian bytes and UTF-8.
  - Digits and strings.
  - Token kinds.
  - Python's clamping slices `s[:n]` and `s[n:]`.

## How the model follows the code

- **Loops and in-place updates are imperative.** Where the code loops or updates objects in place, the model has `method`s with loop invariants and classes with `modifies` frames. Examples: the scanners, `TokenStream`, `Scope`, `ConstraintGenerator`, the Kahn sort, `Finder`, `Inliner`, `ConstantFolder`, `InstructionGenerator` and `encode_instructions`, which fills an `array`. Each such method is proved equal to a specification function. The lemmas then state the code's promises about that function.
- **Python exceptions are values.** They are the `CompilerError` values of a `Result` or an `Outcome`, for example ValueError, TypeError, IndexError, OverflowError, UnexpectedTokenError and CircularTypeError.
- **Python integers are unbounded, as in Dafny.** Fixed widths appear only where the code converts to bytes (`int.to_bytes`), and there an overflow is the error the code raises.
- **The fresh type-variable counter is threaded through.** `TypeVar.unknown` and `TypeVar.n_type_vars` become a counter value. The renaming counters of the simplifier (`_param_index`) are threaded the same way.
- **Three behaviours of the code that the model keeps.**
  - Every `LOAD_STRING` appends its string to the string pool, so a string used twice has two pool entries (`hanno/codegen/main.py:413-416`).
  - `BRANCH` and `JUMP` take relative offsets computed from the lengths of the branches already generated; nothing is patched afterwards (`hanno/codegen/main.py:105-114`).
  - In a `match`, only the last arm's pattern decides whether the match is refutable, because each arm overwrites the offender found so far (`hanno/visitors/exhaustiveness_checker.py:62-68`).

## Model

A function that only computes, and carries no contract of its own, has no row. The rows of the lemmas and methods about it cite the source lines it models. Examples are `Simplifier.BuildBranch`, `Simplifier.ReduceNode`, `Simplifier.ReducePred`, `Simplifier.TreeFrom`, `Simplifier.FoldAnd`, `Simplifier.ParamName` and the scope chain `Scopes.Chain`.

| member | source | states |
|---|---|---|
| Errors.Merge | hanno/errors.py:53-70 | the merged span starts at the smaller of the two starts and ends at the larger of the two ends, each taken from one of the arguments |
| Errors.MergeCommutative | hanno/errors.py:68-70 | merging is independent of argument order |
| Errors.MergeIdempotent | hanno/errors.py:68-70 | merging a span with itself gives that span |
| Errors.MergeAssociative | hanno/errors.py:68-70 | merging three spans gives the same span however they are grouped |
| Errors.RelativePos | hanno/errors.py:208-237 | ValueError exactly when the offset is not inside the source; otherwise the column is the number of characters between the previous newline and the offset, and the line is one more than the newlines before the offset |
| Errors.RelativePosAfterNewline | hanno/errors.py:235-236 | the character after a newline sits at column 0 of the next line |
| Errors.RelativePosAfterChar | hanno/errors.py:235-236 | the character after any other character sits one column further on the same line |
| Errors.MakePointer | hanno/errors.py:240-274 | ValueError exactly when the span starts outside the source; otherwise the text starts with the line number, a space and a bar, and ends with a bar, one underscore per column before the span and one caret per character of the span |
| Ast.NewBlock | hanno/asts/base.py:52-57 | a block with an empty body raises ValueError; any other body is kept as it is |
| Ast.NewName | hanno/asts/base.py:194-199 | a name built from None raises TypeError; a string value gives a name with that value |
| Ast.EqReflexive | hanno/asts/base.py:41-328 | every node equals itself under Python's equality, including the lookups of reflected `__eq__` |
| Ast.UnitEq | hanno/asts/base.py:325-326 | a unit equals a node exactly when that node is a unit |
| Ast.BlockPrefixEq | hanno/asts/base.py:62-70 | because bodies are compared with `zip`, a block equals every longer block that starts with the same expressions |
| Ast.EqNotSymmetric | hanno/asts/base.py:62-70 | a one-element block equals its own element, but a unit does not equal a block holding a unit, so node equality is not symmetric |
| Ast.ScalarBoolIsInt | hanno/asts/base.py:310-313 | scalars compare as Python values: True equals 1 but not 2 |
| Ast.NameEqByValue | hanno/asts/base.py:204-208 | two names are equal exactly when their texts are, and a name equals no node of another class |
| Ast.ListPatternIgnoresRest | hanno/asts/base.py:255-258 | list patterns with the same initial patterns are equal whatever their `rest`, and list patterns with differently many initial patterns are not |
| Lexer.LexNumber | hasdrubal/lex/main.py:342-371 | the token is the longest run of digits, followed, if a dot comes next, by the dot and the digits after it; it is a float exactly when the dot was seen, and the value is the consumed text |
| Lexer.LexName | hasdrubal/lex/main.py:272-297 | the longest run of letters, digits and underscores; a keyword gets its own kind and no value, any other word is a name carrying its text |
| Lexer.LexString | hasdrubal/lex/main.py:300-332 | the string ends at the first quote after the opening one that is not escaped and keeps both quotes; None exactly when every later quote is escaped |
| Lexer.LexWhitespace | hasdrubal/lex/main.py:204-218 | a run of newlines gives a newline token of that length; otherwise the run of whitespace gives a whitespace token |
| Lexer.LexBlockComment | hasdrubal/lex/main.py:222-233 | the comment runs up to and including the first block-comment marker found from index 0, and no earlier position holds a marker |
| Lexer.LexLineComment | hasdrubal/lex/main.py:261-269 | the comment runs up to and including the next newline, or to the end of the input |
| Lexer.LexComment | hasdrubal/lex/main.py:236-257 | a block comment when the marker `###` starts the input, a line comment when it starts with `#`, and None otherwise |
| Lexer.LexWord | hasdrubal/lex/main.py:172-187 | the dispatch by first character: a digit gives a number, a letter or underscore a word, a quote a string; then a two-character symbol, a one-character symbol, whitespace, `###` a block comment of three characters and `#` a line comment; None exactly for an illegal character or an unclosed string; a lexeme is never empty |
| Lexer.LexemeUnique | hasdrubal/lex/main.py:172-187 | at most one answer fits the dispatch for a given source, so the lexing is determined by the text |
| Lexer.StringLexemeUnique | hasdrubal/lex/main.py:300-332 | at most one answer fits a string: a shorter string would end at a quote a longer one needs escaped |
| Lexer.NoLexemeIsNone | hasdrubal/lex/main.py:172-187 | the dispatch answers None exactly when the first character is illegal or is a quote that no unescaped quote closes |
| Lexer.LexAt | hasdrubal/lex/main.py:162-167 | the lexeme scanned from an offset becomes a token starting there, ending within the source, and extending the lexemes scanned so far; None only where no lexeme starts |
| Lexer.KeptExtend | hasdrubal/lex/main.py:167-169 | a lexeme adds a token to the output exactly when it is not a comment or whitespace |
| Lexer.Lex | hasdrubal/lex/main.py:141-169 | every lexeme is what the dispatch answers for the source from the lexeme's start; on success the lexemes tile the whole source with consecutive spans and the tokens are those lexemes without comments and whitespace; on failure the error is IllegalCharError spanning the one character where no lexeme starts |
| Lexer.TokenStream.constructor | hasdrubal/lex/main.py:412-415 | a new stream has an empty cache and has not produced its eof token, so the pending tokens are the generator's followed by one eof |
| Lexer.TokenStream.Advance | hasdrubal/lex/main.py:505-530 | the first pending token is taken off: the cache's top, else the generator's next token, else the synthetic eof the first time and UnexpectedEOFError every time after |
| Lexer.TokenStream.Push | hasdrubal/lex/main.py:535-536 | the pushed token becomes the first pending token |
| Lexer.TokenStream.Consume | hasdrubal/lex/main.py:417-432 | the first pending token is removed and returned when its kind is expected; otherwise it is lost and UnexpectedTokenError carries its span |
| Lexer.TokenStream.ConsumeIf | hasdrubal/lex/main.py:434-460 | answers whether the next token's kind is expected, consuming the token only then and leaving the stream as it was otherwise |
| Lexer.TokenStream.Preview | hasdrubal/lex/main.py:488-503 | the next pending token, or None when none is left; the pending tokens do not change |
| Lexer.TokenStream.Peek | hasdrubal/lex/main.py:462-486 | whether the next pending token has an expected kind; the pending tokens do not change |
| Lexer.TokenStream.NonEmpty | hasdrubal/lex/main.py:538-545 | whether any token, the eof token included, is still pending; the pending tokens do not change |
| EolInference.CanAddEol | hanno/lex/eol_inference.py:39-66 | true exactly when the bracket depth is 0, the whitespace holds a newline, the previous kind can end a statement and the next token is absent or can start one; a whitespace token without text at depth 0 raises TypeError (the `in` test on None) |
| EolInference.DepthStep | hanno/lex/eol_inference.py:97-100 | an opening bracket raises the depth by one, a closing bracket lowers it by one, and every other token leaves it alone |
| EolInference.Infer | hanno/lex/eol_inference.py:93-111 | the loop computes exactly the specification function `Inferred` of the token sequence |
| EolInference.InferredShape | hanno/lex/eol_inference.py:101-111 | the non-whitespace tokens come out unchanged and in order, no whitespace is left, and a non-empty output ends with `eol` |
| EolInference.StepSolid | hanno/lex/eol_inference.py:101-107 | one step keeps every non-whitespace token and emits no whitespace token; converted whitespace becomes `eol` |
| EolInference.InferredEmpty | hanno/lex/eol_inference.py:93-111 | the output is empty exactly when the input consists of whitespace only (including no tokens at all) |
| Preprocessing.NormaliseNewlines | hanno/lex/preprocessing.py:113-154 | the loop over the newline types computes exactly the specification function `NormaliseFrom` |
| Preprocessing.ReplaceThenReplace | hanno/lex/preprocessing.py:142-146 | replacing `\r\n` first and then `\r` maps each CRLF to one `\n` and each lone CR to one `\n` |
| Preprocessing.UnifiedHasNoCR | hanno/lex/preprocessing.py:142-146 | the unified text contains no carriage return |
| Preprocessing.NormaliseAccepted | hanno/lex/preprocessing.py:142-146 | when every newline type is accepted the result is the unified text and holds no `\r` |
| Preprocessing.NormaliseNoCR | hanno/lex/preprocessing.py:142-154 | a source without `\r` comes back unchanged whatever is accepted |
| Preprocessing.NormaliseRejectsCRLF | hanno/lex/preprocessing.py:147-153 | a rejected CRLF that is present raises IllegalCharError at its first position |
| Preprocessing.NormaliseRejectsCR | hanno/lex/preprocessing.py:145-153 | with CRLF accepted and CR rejected, CRLFs are replaced first and a CR still left raises IllegalCharError at its first position in the replaced text |
| Parse.SlashRightAssociative | hanno/parse.py:21-22 | `/` is the one right-associative operator: its right operand is parsed one level below its own precedence, while `^` and every other binary operator keep their precedence |
| Parse.ParseScalar | hanno/parse.py:269-284 | a scalar token is consumed and gives the scalar `ScalarValue` reads from it: `false`, `true`, `float(value)`, `int(value)` (ValueError for a text that is not decimal digits) or the string without its quotes; any other token raises UnexpectedTokenError and stays unconsumed; an exhausted stream raises UnexpectedEOFError |
| Parse.ParseFactor | hanno/parse.py:108-116 | a name token becomes a Name and is consumed; a token that cannot start a factor raises UnexpectedTokenError; without `(`, `[` or a name the result is a scalar |
| Parse.ParseGroup | hanno/parse.py:164-172 | `()` parses to the unit, consuming both brackets; `(x)` parses to the name `x` itself with no node around it; a successful group starts at `(` and ends at `)` |
| Parse.ParseList | hanno/parse.py:193-202 | `[]` is the empty List and `[x]` the List holding the name `x`; a successful list literal starts at `[` and ends at `]` |
| Parse.ParseListItems | hanno/parse.py:193-202 | the elements between the brackets: none before `]`, and the one name of `x ]` |
| Parse.ParseApply | hanno/parse.py:38-58 | a name followed by a token that cannot start a factor is the name itself; two names in a row are the application of the first to the second; an UnexpectedTokenError from the second factor is swallowed and the first factor returned, while any other error propagates |
| Parse.ParseExpr | hanno/parse.py:348-364 | an exhausted stream raises UnexpectedEOFError; a name followed by a closing token (`)`, `]`, `then`, `else`, `->`, `|`, `end`, an end of line or of file) is that name alone; on success the loop has stopped at the end, at a token whose precedence does not exceed the bound, or at one with no infix parser |
| Parse.ParseAfter | hanno/parse.py:183-190 | consuming a token of the given kind and parsing the expression after it: the token must be there, and a single name after it is the expression |
| Parse.ParsePrefix | hanno/parse.py:321-355 | the prefix parser chosen by the first token: `if` gives a Cond, `\` a Function, `let` a Define, `-` an application of `~`, `match` a Match, and a name with no argument after it is that name |
| Parse.InfixOp | hanno/parse.py:21-35 | a binary operator builds `Apply(Apply(Name op, left), right)`; with a single name `x` after the operator, `right` is `x`; the right operand stops at the operator's right precedence |
| Parse.ParsePair | hanno/parse.py:247-250 | a comma builds a Pair whose first part is the left operand and, for `, x`, whose second part is the name `x`; the right part swallows every later comma, so pairs nest to the right |
| Parse.ParseNegate | hanno/parse.py:239-244 | a unary minus becomes `Apply(Name "~", operand)` with the operand parsed at the precedence of `~`; `-x` is `Apply(Name "~", Name x)` |
| Parse.ParseIf | hanno/parse.py:183-190 | a successful `if` starts at `if` and builds a Cond; `if a then b else c` builds `Cond(a, b, c)` |
| Parse.ParseFunc | hanno/parse.py:139-144 | a successful `\` starts at `\` and builds a Function; `\x -> b` builds `Function(FreeName x, Name b)` |
| Parse.ParseDefine | hanno/parse.py:77-105 | `let f p = v` wraps the value in `Function(p, v)` with a FreeName target, and without a parameter the value is stored as parsed |
| Parse.ParseMatch | hanno/parse.py:223-236 | a successful match has exactly one case per `|` arm read, and at least one; after the subject, a match whose next token is not `|` has no arm and raises UnexpectedTokenError at that token, or UnexpectedEOFError at the end of the tokens |
| Parse.ParseBlock | hanno/parse.py:61-74 | no expected ends raises ValueError; no expressions give the unit, one gives that expression itself, more give a Block of them |
| Parse.ParseFactorPattern | hanno/parse.py:119-136 | a name becomes a FreeName, `^x` the PinnedName `x`, a scalar a ScalarPattern, `()` the unit pattern and `(x)` the FreeName `x` itself; a token that starts no pattern raises UnexpectedTokenError |
| Parse.ParseScalarPattern | hanno/parse.py:122-124 | a scalar token becomes the ScalarPattern of the value `parse_scalar` reads, or its error |
| Parse.ParseGroupPattern | hanno/parse.py:131-135 | `()` is the unit pattern and `(x)` the FreeName `x`: a parenthesised pattern is the pattern itself |
| Parse.ParseListPattern | hanno/parse.py:205-220 | `[]` is the empty ListPattern, `[..r]` the ListPattern with no initial patterns and rest `r`, and `[x]` the ListPattern of the FreeName `x` with no rest; a successful list pattern starts at `[` |
| Parse.ParseListPatternItems | hanno/parse.py:208-217 | the loop stops at once before `]`, takes `..r` as the rest with no initials, and takes a single name before `]` as the one initial |
| Parse.ParseRestName | hanno/parse.py:209-212 | `..` followed by a name gives that name and consumes both tokens |
| Parse.ParseStmt | hanno/parse.py:369-386 | a statement is a definition or an expression, and a `::` after it is rejected |
| Parse.Parse | hanno/parse.py:389-409 | statements, each followed by an `eol`, until the tokens run out: no statement gives the unit, one gives that statement, more give a Block; an empty stream parses to the unit |
| Types.TypeEqSymmetric | hanno/asts/types_.py:61-152 | type equality is symmetric |
| Types.TypeEqTransitive | hanno/asts/types_.py:61-152 | type equality is transitive |
| Types.TypeEqReflexive | hanno/asts/types_.py:61-152 | every type equals itself |
| Types.VariablesIndistinct | hanno/asts/types_.py:151-152 | any two type variables are equal whatever their names, so `a -> r` equals `b -> r` |
| Types.FuncPairEq | hanno/asts/types_.py:37-66 | a function type never equals a pair type, and two function (or two pair) types are equal exactly when their parts are |
| Types.ContainsOpenVar | hanno/asts/types_.py:68-161 | a type contains a value exactly when the value is a type variable whose name occurs in the type outside every scheme; names and schemes contain nothing |
| Types.FuncContains | hanno/asts/types_.py:37-69 | a function type contains exactly what its argument or result type contains |
| Types.TupleAsWritten | hanno/asts/types_.py:48-59 | `tuple_` as written: no elements give Unit and one element gives that element |
| Types.TupleAsWrittenReordersFour | hanno/asts/types_.py:55-59 | with four elements the code builds `(b, (a, (c, d)))`, which differs from the right-nested tuple whenever `a` and `b` differ |
| Types.Tuple | hanno/asts/types_.py:48-59 | the intended tuple type: Unit for no elements, the element itself for one |
| Types.TupleComponents | hanno/asts/types_.py:48-59 | reading the right-nested pairs of the intended tuple back gives the elements in their order |
| Types.TupleAgreesUpToThree | hanno/asts/types_.py:48-59 | the code as written and the intended tuple agree for up to three elements |
| Types.Fresh | hanno/asts/types_.py:137-149 | each call advances the counter by one and yields a type variable |
| Types.FreshDistinct | hanno/asts/types_.py:148-149 | different counter values give different variable names |
| Types.TypeVarSupply.Unknown | hanno/asts/types_.py:137-149 | the counter is incremented and the new variable differs from every variable handed out before |
| Scopes.ChainDepth | hanno/scope.py:55-85 | -1 exactly when the name is absent from the whole chain; otherwise the index of the innermost scope holding it, no nearer scope holding it |
| Scopes.ChainLookup | hanno/scope.py:128-133 | a value exactly when the name is somewhere in the chain, and then the innermost binding |
| Scopes.SetThenLookup | hanno/scope.py:135-139 | after an assignment a lookup of an unshadowed name gives the assigned value |
| Scopes.ShadowedSetInvisible | hanno/scope.py:135-139 | when both the local scope and its parent hold the name, the assignment goes to the parent and a lookup still sees the old local value |
| Scopes.SetKeepsOthers | hanno/scope.py:135-139 | an assignment leaves the lookup of every other name unchanged |
| Scopes.SetKeepsEnclosingNames | hanno/scope.py:135-139 | an assignment adds no name to any enclosing scope |
| Scopes.SetHeadKeys | hanno/scope.py:135-139 | assigning a name already in the chain adds no name to the local scope |
| Scopes.Scope.constructor | hanno/scope.py:40-42 | a new scope is empty and its chain is the parent's chain with an empty scope in front |
| Scopes.Scope.Down | hanno/scope.py:87-89 | a fresh child whose parent is this scope and whose chain adds one empty scope in front |
| Scopes.Scope.Up | hanno/scope.py:100-102 | the root returns itself; any other scope returns its parent, whose chain is this chain without its first scope |
| Scopes.Scope.Contains | hanno/scope.py:113-116 | membership searches the whole parent chain |
| Scopes.Scope.Lookup | hanno/scope.py:128-133 | the innermost binding of the name, or UndefinedNameError when the whole chain lacks it |
| Scopes.Scope.Get | hanno/scope.py:91-98 | the innermost binding when there is one; the default only at a root that lacks the name; below the root a missing name raises UndefinedNameError (the parent is indexed) |
| Scopes.Scope.Depth | hanno/scope.py:55-85 | the loop computes the chain depth: 0 for a local name, one more per parent level, -1 when absent |
| Scopes.Scope.Set | hanno/scope.py:135-139 | the chain becomes `ChainSet`: the name is rebound in the ancestor that already holds it, else bound locally |
| Scopes.Scope.Update | hanno/scope.py:104-108 | the chain becomes the assignments of the items one after another |
| Unification.ChaseLoopsOnCycle | hanno/type_inference/utils.py:198-202 | as written, the chain-following loop of `substitute` returns to its first state after two turns on a substitution binding `a` to `b` and `b` to `a`, so it never stops |
| Unification.MergeBuildsCycle | hanno/type_inference/utils.py:52-101 | `a ~ b` and `b ~ a` unify to `{a: b}` and `{b: a}`, whose merge is exactly the cyclic substitution of ChaseLoopsOnCycle |
| Unification.ResolveVar | hanno/type_inference/utils.py:198-202 | the corrected chain-following loop computes `Resolve`: it follows variable to variable and stops at an unbound variable, a self-binding, a non-variable, or a variable already visited |
| Unification.ResolveFollowsChain | hanno/type_inference/utils.py:198-202 | a chain of variables ends at the first binding that is not a variable, and a variable bound to an unbound variable resolves to that variable |
| Unification.ResolveEnds | hanno/type_inference/utils.py:198-202 | the resolved type is a non-variable the substitution binds, or a variable that is unbound or bound to a variable |
| Unification.Without | hanno/type_inference/utils.py:210-214 | the substitution restricted to the variables a scheme does not bind, with their values unchanged |
| Unification.Substitute | hanno/type_inference/utils.py:179-215 | a type name comes back unchanged, a scheme stays a scheme with the same bound variables, and an application stays an application |
| Unification.SubstituteEmpty | hanno/type_inference/utils.py:179-215 | the empty substitution changes nothing |
| Unification.SubstituteUntouched | hanno/type_inference/utils.py:179-215 | a substitution none of whose keys is free in the type changes nothing |
| Unification.SubstituteSkipsBound | hanno/type_inference/utils.py:209-215 | inside a scheme only the free variables are replaced: the bound ones are left alone even when the substitution has them as keys |
| Unification.OpenVarsAreFree | hanno/type_inference/utils.py:146-168 | every variable a type contains is free in it, and for types without schemes the two sets agree; a scheme's free variables are its body's minus the bound ones |
| Unification.FoldSchemes | hanno/type_inference/utils.py:171-176 | the result is a scheme whose body is not a scheme, with the same free variables, binding at least the variables of the outer scheme |
| Unification.Generalise | hanno/type_inference/utils.py:127-143 | the result has no free variables; a type without free variables comes back unchanged, and any other becomes one flat scheme binding all its free variables |
| Unification.FreshVars | hanno/type_inference/utils.py:119-123 | one fresh variable per bound variable, the counter advanced by their number |
| Unification.Instantiate | hanno/type_inference/utils.py:105-124 | a type that is not a scheme is returned unchanged; a scheme consumes one counter value per bound variable |
| Unification.InstantiateEmptyScheme | hanno/type_inference/utils.py:119-123 | a scheme that binds nothing instantiates to its body |
| Unification.InstantiateIdentity | hanno/type_inference/utils.py:119-123 | the scheme binding `x` in `x` instantiates to the next fresh variable |
| Unification.Unify | hanno/type_inference/utils.py:25-69 | a successful unification never moves the fresh-variable counter backwards; as written it is not sound (`Unification.UnifyAcceptsClash`), and the intended unifier `Unifier.UnifyUnder` is proved sound |
| Unification.Merge | hanno/type_inference/utils.py:72-102 | a successful merge never moves the fresh-variable counter backwards; as written it can drop a binding (`Unification.MergeLosesBinding`) |
| Unification.MergeLosesBinding | hanno/type_inference/utils.py:95-101 | merging `{a: b}` with `{a: Bool, b: Int}` unifies the shared variable's values, `b ~ Bool`, and lays `{b: Bool}` over both sides: the merge is `{a: Bool, b: Bool}`, under which `b` no longer equals Int |
| Unification.UnifyArrowVariable | hanno/type_inference/utils.py:51-67 | `(->) a ~ (->) b` gives `{a: b}` |
| Unification.UnifyArrowArgument | hanno/type_inference/utils.py:51-67 | `(->) a ~ (->) Bool` gives `{a: Bool}` |
| Unification.ClashUnsolvable | hanno/type_inference/utils.py:63-67 | no substitution makes `a -> (a -> b)` and `b -> (Bool -> Int)` equal |
| Unification.UnifyAcceptsClash | hanno/type_inference/utils.py:63-67 | as written, unifying `a -> (a -> b)` with `b -> (Bool -> Int)` succeeds with `{a: Bool, b: Bool}`, although no substitution makes the two sides equal |
| Unifier.Bind | hanno/type_inference/utils.py:55-58 | composing a new binding into a substitution: the keys are the old keys and the new variable |
| Unifier.UnifyUnder | hanno/type_inference/utils.py:51-69 | the intended unifier, run under the substitution found so far: a result never moves the counter backwards and keeps every variable already bound |
| Unifier.UnifyUnderSound | hanno/type_inference/utils.py:51-69 | for sides without schemes and a solved substitution, a result is solved, keeps every equation the substitution solved, and makes the two sides equal |
| Unifier.UnifySound | hanno/type_inference/utils.py:25-69 | the intended unifier, from the empty substitution, returns only substitutions that make both sides of the equation equal |
| Unifier.ClashRejected | hanno/type_inference/utils.py:63-67 | the intended unifier returns no substitution for the equation the written one accepts |
| Unifier.SolveUnder | hanno/type_inference/main.py:36-40 | the equations solved one after another under the substitution found so far; the counter never moves backwards |
| Unifier.SolveSound | hanno/type_inference/main.py:36-40 | a solution of scheme-free equations is solved, keeps the starting substitution's equations, and makes both sides of every equation equal |
| Unifier.InstantiateShallow | hanno/type_inference/utils.py:105-124 | instantiating a shallow type (no scheme, or one scheme at the top over a scheme-free body) leaves no scheme |
| Unifier.UnifyInstantiated | hanno/type_inference/utils.py:50-51 | unifying two shallow sides is unifying the scheme-free instances `instantiate` makes of them, left side first, with the counter moved past their fresh variables |
| Unifier.SolveShallowSound | hanno/type_inference/main.py:36-40 | for shallow equations and a solved start, a solution is solved and keeps the start's equations; for every equation the solver made one instance of each side, and the two instances are equal under the solution |
| Unification.SelfApplied | hanno/type_inference/utils.py:101 | every value of the merged substitution has the merged substitution applied to it, with the same keys |
| Unification.UnifySameVar | hanno/type_inference/utils.py:52-54 | a variable unifies with itself to the empty substitution |
| Unification.UnifyOccurs | hanno/type_inference/utils.py:55-60 | a variable inside the other side raises CircularTypeError, on either side of the equation |
| Unification.UnifyBinds | hanno/type_inference/utils.py:55-60 | a variable that does not occur in the other side binds to it, also when the variable is on the right |
| Unification.UnifyNames | hanno/type_inference/utils.py:61-69 | equal type names unify to the empty substitution; different names, or a name against an application, raise TypeMismatchError |
| Unification.UnifyApplications | hanno/type_inference/utils.py:63-68 | applications unify part-wise: a failure of either part is the result, otherwise the two substitutions are merged |
| Unification.UnifyFunctionTypes | hanno/type_inference/utils.py:52-68 | `a -> b` unifies with `Bool -> Int` to `{a: Bool, b: Int}` |
| Unification.MergeWithEmpty | hanno/type_inference/utils.py:102 | merging with an empty substitution returns the other one |
| Unification.MergeKeys | hanno/type_inference/utils.py:95-101 | no key of either side is lost by a merge |
| Unification.MergeDisjoint | hanno/type_inference/utils.py:95-101 | two non-empty substitutions without shared keys merge into their union with the union applied to every value |
| Unification.PatternInfer | hanno/type_inference/utils.py:219-256 | the unit pattern binds nothing and has type Unit; `_` binds nothing and gets a fresh variable; another free name binds itself to a fresh variable; a scalar pattern gets its scalar's type name; a pinned name takes its type from the scope or raises UndefinedNameError; a pair pattern has a pair type; a list pattern has a List type and binds its `rest` to that type; only names the pattern mentions are bound |
| Unification.ListPatternInfer | hanno/type_inference/utils.py:259-273 | the type is `List` of the unified element type (a fresh variable when there are no initial patterns), and `rest` is bound to the whole list type |
| Inference.PatternName | hanno/type_inference/main.py:116-128 | a free or pinned name is stored under its text; pair, list and unit patterns, which have no `.value`, raise AttributeError; a scalar pattern also raises AttributeError here, which is narrower than the code (Left out line Inference.PatternName) |
| Inference.ConstraintGenerator.constructor | hanno/type_inference/main.py:66-75 | no equations yet, and `main` is bound to its function type in the scope below the operators' |
| Inference.ConstraintGenerator.Unknown | hanno/type_inference/main.py:81-138 | a fresh type variable from the counter; the equations and the scope are untouched |
| Inference.ConstraintGenerator.Visit | hanno/type_inference/main.py:80-166 | equations are only ever appended and the counter only grows; a success leaves the enclosing scopes' names as they were; a unit, a scalar and a match neither push equations nor move the counter; a scalar gets the type name of its value's kind; a match raises, the generator having no `visit_match`; from a scope and equations that are shallow (`Sane`), a statement keeps them shallow and gets a shallow type, and an expression with no definition in value position gets a type without schemes |
| Inference.ConstraintGenerator.VisitApply | hanno/type_inference/main.py:80-85 | the node's type is a fresh variable and the last equation pushed is `caller ~ arg -> node type`; keeps the scope and the equations shallow, as `Visit` does |
| Inference.ConstraintGenerator.VisitBlock | hanno/type_inference/main.py:87-93 | the scope is restored on exit; an empty block gives Unit, any other a Block typed by its last expression; keeps the scope and the equations shallow, as `Visit` does |
| Inference.ConstraintGenerator.VisitCond | hanno/type_inference/main.py:95-103 | the equations `pred ~ Bool` and `cons ~ else` are pushed, and the node's type is the type of `cons`; keeps the scope and the equations shallow, as `Visit` does |
| Inference.ConstraintGenerator.BindTarget | hanno/type_inference/main.py:106-113 | the target's type in the scope if it has one, else a fresh variable, is bound to the target; the equations are untouched, no enclosing scope gains a name, and a shallow scope stays shallow with a shallow initial type |
| Inference.ConstraintGenerator.VisitDefine | hanno/type_inference/main.py:105-120 | a pair, list or unit target raises AttributeError, and so does a scalar target, which the code types (Left out line Inference.ConstraintGenerator.VisitDefine); otherwise the node's type is the generalised type of the value and the last equation relates the target's initial type to it; keeps the scope and the equations shallow, as `Visit` does |
| Inference.ConstraintGenerator.VisitFunction | hanno/type_inference/main.py:122-134 | a pair, list or unit parameter raises AttributeError, and so does a scalar parameter, which the code binds (Left out line Inference.ConstraintGenerator.VisitFunction); otherwise the parameter gets a fresh variable, the node's type is `param -> body type`, and the scope is restored afterwards; keeps the scope and the equations shallow, as `Visit` does |
| Inference.ConstraintGenerator.VisitList | hanno/type_inference/main.py:136-143 | an empty list gets `List` of a fresh variable and no equation; otherwise every element's type is constrained to the first element's and the node's type is `List` of that type; keeps the scope and the equations shallow, as `Visit` does |
| Inference.ConstraintGenerator.VisitPair | hanno/type_inference/main.py:145-149 | the node's type is the pair of its parts' types; keeps the scope and the equations shallow, as `Visit` does |
| Inference.ConstraintGenerator.VisitName | hanno/type_inference/main.py:151-155 | a name absent from the scope raises UndefinedNameError; otherwise its type is the instantiated type the scope gives it; no equation is pushed; keeps the scope and the equations shallow, as `Visit` does |
| Inference.ElementEquations | hanno/type_inference/main.py:139-141 | one equation per element, each relating the element type to that element's type |
| Inference.SetKeepsAllEnclosing | hanno/scope.py:135-139 | an assignment into the scope adds no name to the enclosing scopes |
| Inference.SubstituteTree | hanno/type_inference/main.py:169-254 | units and scalars are kept; a definition's type is the generalised substituted type of its value; every other node's type is its substituted type |
| Inference.SubstituteAll | hanno/type_inference/main.py:191-230 | the substitutor applied to each element in order |
| Inference.SubstituteTreeEmpty | hanno/type_inference/main.py:169-254 | with the empty substitution the substitutor returns a tree whose definitions are already generalised unchanged |
| Inference.Solve | hanno/type_inference/main.py:36-40 | the fold with the call `unify(Equation(left, right))` that the code evidently intends, not the two-argument call it makes (Findings row hanno/type_inference/main.py:36); solving the equations never moves the counter backwards; the corrected solution `Unifier.SolveUnder` is proved to solve every scheme-free equation (`Unifier.SolveSound`) and an instance of both sides of every shallow one (`Unifier.SolveShallowSound`) |
| Inference.SolveSmall | hanno/type_inference/main.py:36-40 | no equations give the empty substitution, one equation gives its unifier |
| Inference.SolveKeepsKeys | hanno/type_inference/main.py:36-40 | merging in later unifiers loses no key already solved |
| Inference.SolveEquations | hanno/type_inference/main.py:36-40 | the loop computes exactly the fold `Solve` of the equations, so it too makes the intended one-argument call (Left out line Inference.SolveEquations) |
| Inference.SolveCalling | hanno/type_inference/main.py:36-40 | the fold when each `unify` call passes a given number of arguments: no equation gives `{}`; with any equation, a number other than the one parameter `unify` declares (hanno/type_inference/utils.py:25) raises TypeError before anything is unified; one argument gives `Solve` |
| Inference.UnifyCallAsWritten | hanno/type_inference/main.py:36 | as written, the two-argument call `utils.unify(left, right)` makes every program with an equation raise TypeError, even `a ~ a`, which the intended call solves with the empty substitution |
| Inference.InferTypes | hanno/type_inference/main.py:15-42 | solving as intended, with `Unifier.SolveUnder` and the one-argument `unify` call (Left out lines Inference.InferTypes): a unit or scalar program is typed directly; a match fails with TypeError; a name that is neither `main` nor an operator raises UndefinedNameError; a typed result is the generator's tree, with every definition's type generalised, under the solution of the generator's equations; that solution makes the two instances of every shallow equation equal; and with operators of shallow type, a program whose definitions stand as statements yields only shallow equations |
| Visitors.Instantiate | hanno/asts/visitor.py:12-166 | building a visitor succeeds exactly when its class defines every abstract `visit_*` method its base declares, and otherwise raises TypeError |
| Visitors.ConstraintGeneratorAbstract | hanno/type_inference/main.py:45-166 | `ConstraintGenerator()` raises TypeError, because `visit_match` and four other methods are left abstract |
| Visitors.SubstitutorAbstract | hanno/type_inference/main.py:169-254 | `Substitutor(...)` raises TypeError, because exactly `visit_impl`, `visit_match` and `visit_trait` are left abstract |
| Visitors.ExhaustivenessCheckerAbstract | hanno/visitors/exhaustiveness_checker.py:26-84 | `ExhaustivenessChecker()` raises TypeError, because exactly `visit_impl` and `visit_trait` are left abstract |
| Visitors.StringExpanderAbstract | hanno/visitors/string_expander.py:52-142 | `StringExpander()` raises TypeError, because exactly `visit_impl` and `visit_trait` are left abstract |
| Visitors.CompleteInstantiates | hanno/visitors/ast_sorter.py:140-268 | a visitor that defines every abstract method, as `TopologicalSorter` and `Simplifier` do, is built without error (see also hanno/codegen/simplifier.py:43-145) |
| Exhaustiveness.NonExhaustive | hanno/visitors/exhaustiveness_checker.py:87-113 | an offender is always a refutable part of the pattern; a pair answers its first part's offender before looking at the second |
| Exhaustiveness.NonExhaustiveComplete | hanno/visitors/exhaustiveness_checker.py:103-113 | a pattern is judged irrefutable exactly when none of its parts is refutable: free names, unit patterns, pairs of irrefutable parts and `[..rest]` |
| Exhaustiveness.NonExhaustiveSamples | hanno/visitors/exhaustiveness_checker.py:103-113 | `(x, ())` and `[..rest]` are irrefutable; `[]`, a pinned name and the scalar inside `(x, 1)` are the offenders |
| Exhaustiveness.Checked | hanno/visitors/exhaustiveness_checker.py:32-84 | names, scalars and units raise nothing; a refutable define target is reported with position TARGET and a refutable parameter with position PARAMETER; a reported case is a refutable pattern or the empty-match unit |
| Exhaustiveness.FirstOfNone | hanno/visitors/exhaustiveness_checker.py:36-55 | a sequence of expressions raises nothing exactly when none of them does |
| Exhaustiveness.FirstInArmsNone | hanno/visitors/exhaustiveness_checker.py:63-64 | the arms' bodies raise nothing exactly when none of them does |
| Exhaustiveness.MatchJudgedByLastArm | hanno/visitors/exhaustiveness_checker.py:62-68 | a match is judged by its last arm's pattern only: it raises with position CASE exactly when that pattern is refutable |
| Exhaustiveness.EmptyMatch | hanno/visitors/exhaustiveness_checker.py:59-60 | a match without arms raises unless its subject has the type Never |
| Exhaustiveness.CondBranchesUnchecked | hanno/visitors/exhaustiveness_checker.py:40-41 | only a conditional's predicate is visited, so a refutable function in a branch goes unreported there although it is reported on its own |
| Exhaustiveness.Check | hanno/visitors/exhaustiveness_checker.py:26-84 | the visitor computes exactly the specification function `Checked` |
| Exhaustiveness.CheckMatch | hanno/visitors/exhaustiveness_checker.py:57-68 | the match visitor computes exactly `Checked` of the match |
| Exhaustiveness.CheckAll | hanno/visitors/exhaustiveness_checker.py:36-55 | the loop over a body computes exactly `FirstOf` of it |
| AstSorter.FreeNamesOfLeaves | hanno/visitors/ast_sorter.py:88-105 | scalar, pinned and unit patterns bind nothing, a free name binds itself, and `[..rest]` binds `rest` |
| AstSorter.PinnedInPairAsWritten | hanno/visitors/ast_sorter.py:122-137 | as written, the pinned names found in `(^a, b)` are `{b}`, a name the pattern binds, while the pattern takes `a` from outside |
| AstSorter.PinnedNamesNotBound | hanno/visitors/ast_sorter.py:108-137 | the corrected pinned names of a pattern are empty exactly when it holds no pinned name at any depth |
| AstSorter.BindersExcluded | hanno/visitors/ast_sorter.py:191-204 | a definition or a function never depends on a name its target or parameter binds, and otherwise depends on what its body depends on |
| AstSorter.GenerateOutgoing | hanno/visitors/ast_sorter.py:66-85 | the result inverts its input, counting multiplicities: `k` appears in `out[v]` as often as `v` appears in `incoming[k]`; each list is non-empty, newest dependent first |
| AstSorter.AddDependent | hanno/visitors/ast_sorter.py:81-84 | one key's dependencies are prepended to the lists of the definitions it uses, and nothing else changes |
| AstSorter.PendingRelease | hanno/visitors/ast_sorter.py:58-61 | sorting one more expression lowers the pending count of every dependent by the number of times it uses that expression |
| AstSorter.StartCounts | hanno/visitors/ast_sorter.py:51 | each expression starts with as many pending dependencies as it has |
| AstSorter.StartReady | hanno/visitors/ast_sorter.py:52 | the ready list holds, in increasing order, exactly the expressions with no pending dependency |
| AstSorter.Release | hanno/visitors/ast_sorter.py:58-61 | after the dependents of the node just sorted are counted down, the counts and the ready list again describe what is still pending |
| AstSorter.KahnSort | hanno/visitors/ast_sorter.py:46-63 | the order is a Kahn order: no expression twice, each after every expression it depends on, and every expression left out waits on one that is also left out; with no dependencies at all every expression comes out, in reverse order |
| AstSorter.RankedKeepsAll | hanno/visitors/ast_sorter.py:46-63 | when the dependencies can be ranked (no cycle), a Kahn order leaves no expression out |
| AstSorter.Incoming | hanno/visitors/ast_sorter.py:45-49 | the corrected dependency lists: expression `k` depends on exactly the positions of the block expressions defining the names it uses |
| AstSorter.IncomingAsWritten | hanno/visitors/ast_sorter.py:166-199 | as written, the recorded definitions are the rebuilt Define nodes, which match no expression of the sort, so an expression's list is empty exactly when it uses no name the block defines |
| AstSorter.AsWrittenDropsUsers | hanno/visitors/ast_sorter.py:166-199 | as written, the sorted block keeps exactly the expressions that use no name the block defines |
| AstSorter.DefineThenUse | hanno/visitors/ast_sorter.py:166-180 | for `let x = 1` followed by `x`, the code as written loses the use of `x`, while the corrected sort keeps both with the definition first |
| AstSorter.TopologicalSortExprs | hanno/visitors/ast_sorter.py:37-63 | fewer than two expressions come back unchanged; otherwise the result lists the rebuilt expressions in a Kahn order of the corrected dependency lists |
| AstSorter.TopologicalSorter.constructor | hanno/visitors/ast_sorter.py:152-153 | the sorter starts with no recorded definitions |
| AstSorter.TopologicalSorter.Visit | hanno/visitors/ast_sorter.py:161-268 | the second result is exactly the names the expression depends on; names, scalars and units come back unchanged; every other node comes back as the same kind of node (`SameShape`): definitions and functions keep their target or parameter, lists their length, matches their arm patterns; the names an expression defines are recorded at its position |
| AstSorter.TopologicalSorter.VisitApply | hanno/visitors/ast_sorter.py:161-164 | an application depends on what its function and its argument depend on, and records the definitions of both, in order; the node comes back as the same kind of node (`SameShape`) |
| AstSorter.TopologicalSorter.VisitCond | hanno/visitors/ast_sorter.py:182-189 | a conditional depends on its predicate and both branches, and records the definitions of all three; the node comes back as the same kind of node (`SameShape`) |
| AstSorter.TopologicalSorter.VisitDefine | hanno/visitors/ast_sorter.py:191-199 | a definition keeps its target, depends on its value less the names the target binds, and records those names at the current position over the value's definitions; the node comes back as the same kind of node (`SameShape`) |
| AstSorter.TopologicalSorter.VisitFunction | hanno/visitors/ast_sorter.py:201-204 | a function keeps its parameter and depends on its body less the names the parameter binds; the node comes back as the same kind of node (`SameShape`) |
| AstSorter.TopologicalSorter.VisitPair | hanno/visitors/ast_sorter.py:233-236 | a pair depends on both halves and records the definitions of both; the node comes back as the same kind of node (`SameShape`) |
| AstSorter.TopologicalSorter.VisitBlock | hanno/visitors/ast_sorter.py:166-180 | the definitions of the enclosing block are restored on exit; the second result lists the rebuilt expressions, one per expression of the block, each the same kind of node as the expression it was rebuilt from (`SameShape`); fewer than two come back as rebuilt, and otherwise the block lists the rebuilt expressions in a Kahn order of the dependency lists that each expression's names and the block's definitions give (`DepsEach`, `BlockDefinitions`); the result is never an empty block, so a block whose every expression waits on another raises ValueError |
| AstSorter.TopologicalSorter.VisitExprs | hanno/visitors/ast_sorter.py:170-176 | the loop of `visit_block`: from fresh definitions, one rebuilt expression per expression, each the same kind of node, with the dependency list `DepsEach` of the expressions, their union, and the block's definitions `BlockDefinitions` |
| AstSorter.TopologicalSorter.VisitList | hanno/visitors/ast_sorter.py:213-220 | a list depends on the union of its elements' dependencies; the node comes back as the same kind of node (`SameShape`) |
| AstSorter.TopologicalSorter.VisitMatch | hanno/visitors/ast_sorter.py:222-231 | a match depends on its subject, on each arm's pinned names and on each arm's body; the node comes back as the same kind of node (`SameShape`). The pinned names are those of the corrected `PinnedNames`, not of the code's `find_pinned_names` (Findings row ast_sorter.py:122-137) |
| StringExpander.EscapeAt | hanno/visitors/string_expander.py:9-17 | the escape pattern at a position: it starts with a backslash and fits in the text; a special escape is the letter after the backslash, and a hexadecimal escape is tried only when the letter is not a special one (the alternatives' order) |
| StringExpander.Chr | hanno/visitors/string_expander.py:197-203 | `chr`: the character with that code point, ValueError beyond U+10FFFF |
| StringExpander.Decode | hanno/visitors/string_expander.py:177-204 | `process_match`: a special escape decodes to its entry in the special-escape table; a hexadecimal escape decodes to the character whose code point its digits spell, and raises ValueError when that is beyond U+10FFFF; only a hexadecimal escape can fail, and only with ValueError |
| StringExpander.Expanded | hanno/visitors/string_expander.py:145-174 | the only error is ValueError, and an expansion is never longer than the text it expands |
| StringExpander.NoBackslashUnchanged | hanno/visitors/string_expander.py:171-174 | a string without escapes is returned unchanged |
| StringExpander.FindEscape | hanno/visitors/string_expander.py:163 | the loop finds exactly the next match of the escape pattern, as `finditer` does |
| StringExpander.ExpandString | hanno/visitors/string_expander.py:145-174 | the loop computes exactly the specification function `Expanded`: the text between escapes is copied in order and each escape is replaced by its character |
| StringExpander.HexDigitsRead | hanno/visitors/string_expander.py:195-203 | reading back the hexadecimal digits of a number gives the number |
| StringExpander.EscapeOfAt | hanno/visitors/string_expander.py:14 | the six-digit escape of a character is found as one escape and decodes back to that character (see also hanno/visitors/string_expander.py:201-203) |
| StringExpander.ExpandEscapeAll | hanno/visitors/string_expander.py:145-203 | expansion inverts escaping: writing every character of a text as its `\UXXXXXX` escape and expanding gives the text back |
| StringExpander.ExpandSingle | hanno/visitors/string_expander.py:163-173 | one escape followed by plain text expands to its character followed by that text |
| StringExpander.FormFeedSample | hanno/visitors/string_expander.py:19-31 | `\f` expands to the form feed through the special-escape table (see also hanno/visitors/string_expander.py:192-194) |
| StringExpander.SeparatorSample | hanno/visitors/string_expander.py:30 | `\/` expands to the platform's path separator, a parameter of the model |
| StringExpander.BackspaceBeforeHexSample | hanno/visitors/string_expander.py:11-12 | `\bF` is the backspace escape followed by `F`, not the hexadecimal escape `\bF`, because the special alternative comes first |
| StringExpander.TwoDigitSample | hanno/visitors/string_expander.py:195-197 | `\5F` expands to `_` |
| StringExpander.FourDigitSample | hanno/visitors/string_expander.py:198-200 | `\u039B` expands to `Λ` (U+039B) |
| StringExpander.SixDigitSample | hanno/visitors/string_expander.py:201-203 | `\U01F4A9` expands to U+1F4A9 |
| StringExpander.UnknownEscapeSample | hanno/visitors/string_expander.py:9-17 | a backslash the pattern does not match, as in `\q`, is left in place |
| StringExpander.CodeTooLarge | hanno/visitors/string_expander.py:201-203 | a six-digit escape beyond U+10FFFF makes the expansion raise ValueError |
| StringExpander.ExpandValue | hanno/visitors/string_expander.py:133-136 | only string values are expanded; other values come back unchanged and strings stay strings |
| StringExpander.ExpandNode | hanno/visitors/string_expander.py:52-142 | the tree walk fails only with ValueError, from an escape that names no character |
| StringExpander.ExpandNodes | hanno/visitors/string_expander.py:68-97 | the elements are expanded one by one and their number is kept |
| StringExpander.ExpandArms | hanno/visitors/string_expander.py:99-104 | the arms are expanded one by one and their number is kept |
| StringExpander.PlainNodeUnchanged | hanno/visitors/string_expander.py:52-142 | a tree whose strings hold no backslash comes back unchanged |
| StringExpander.PlainPatternUnchanged | hanno/visitors/string_expander.py:116-131 | a pattern whose string scalars hold no backslash comes back unchanged |
| StringExpander.TreeSample | hanno/visitors/string_expander.py:61-136 | in a conditional tree only the string scalars with escapes change, and `\/Users` becomes the separator followed by `Users` |
| Lowered.OpOf | hanno/asts/lowered.py:11-32 | `OperationTypes(text)`: an operation is found only for its own operator text |
| Lowered.OpOfSymbol | hanno/asts/lowered.py:11-32 | every operation is found again from its text, so the eleven texts are distinct |
| Lowered.MakeBlock | hanno/asts/lowered.py:63-68 | a block is built from exactly its body, and an empty body raises ValueError |
| Lowered.BlockNew | hanno/asts/lowered.py:70-80 | `Block.new`: no expressions give the unit, one expression is returned itself, and two or more give an unmarked block of exactly those expressions |
| Lowered.ExprsOfBlockNew | hanno/asts/lowered.py:70-80 | the expressions of `Block.new(body)` are the body again, except exactly when the body is one block or the empty body becomes a unit |
| Lowered.EqReflexive | hanno/asts/lowered.py:52-241 | every lowered node equals itself under the nodes' `__eq__` methods, whichever way blocks compare |
| Lowered.ZipEqReflexive | hanno/asts/lowered.py:85-91 | a body compared element by element with itself is equal |
| Lowered.TupleEqReflexive | hanno/asts/lowered.py:171-172 | a list's elements compared as a tuple with themselves are equal |
| Lowered.NativeOpEq | hanno/asts/lowered.py:235-241 | a unary operation never equals a binary one, and operations with different operators are never equal |
| Lowered.MarkIgnored | hanno/asts/lowered.py:85-91 | the `merge_parent` mark in the metadata plays no part in equality |
| Lowered.BlockPrefixEq | hanno/asts/lowered.py:85-172 | as written a block equals a longer block that it starts, where a list does not equal a longer list; compared as intended the blocks differ |
| Lowered.ZipPrefix | hanno/asts/lowered.py:85-91 | `zip` stops at the shorter body, so a body is block-equal to any extension of it |
| Lowered.IntendedBlocksDiffer | hanno/asts/lowered.py:85-91 | compared as intended, blocks of different lengths are never equal |
| Simplifier.ElementBranches | hanno/codegen/simplifier.py:338-347 | one test for each initial pattern of a list pattern |
| Simplifier.ListPatternBranch | hanno/codegen/simplifier.py:313-365 | the loop of `_build_list_pattern_branch` computes exactly the branch the specification `BuildBranch` gives: the length test, then each element's test and definitions in order, then the rest's definition |
| Simplifier.CollectingStep | hanno/codegen/simplifier.py:338-347 | one turn of the loop keeps the collected tests and definitions a prefix of the whole |
| Simplifier.CollectingDone | hanno/codegen/simplifier.py:349-365 | after the loop, the rest's definition and the fold with `and` complete the branch |
| Simplifier.ApplyNotTrue | hanno/codegen/simplifier.py:11 | no application equals `TRUE_NODE` (see also hanno/codegen/simplifier.py:391) |
| Simplifier.PredTruthIsTruth | hanno/codegen/simplifier.py:368-370 | a test means what the surface expression built for it with `_ast_and` means |
| Simplifier.ReduceNodeSound | hanno/codegen/simplifier.py:373-401 | the intended reduction keeps a predicate's meaning: None only for a predicate that always holds, otherwise an equivalent predicate |
| Simplifier.ReducePredSound | hanno/codegen/simplifier.py:373-401 | the same for the tests that `build_branch` builds |
| Simplifier.PairTestDropped | hanno/codegen/simplifier.py:391-400 | as written, `reduce_pred` drops the test of the pair pattern `(x, 1)`, which can fail, because `None and p` is None; the intended reduction keeps it |
| Simplifier.BaseBlockNew | hanno/codegen/simplifier.py:220 | the `Block.new` that `to_decision_tree` calls on the surface tree builds a block exactly when there are at least two expressions |
| Simplifier.DecisionTree | hanno/codegen/simplifier.py:201-239 | a match with no arms fails with IndexError when the default branch is popped, and only then. Each arm's test is reduced with the corrected `ReducePred`, not the code's `reduce_pred` (Findings row simplifier.py:391-400), and its block is built with the supplied `Block.new` (Findings row simplifier.py:220) |
| Simplifier.DecisionTreeAsWritten | hanno/codegen/simplifier.py:216-220 | as written every match fails in lowering |
| Simplifier.EveryMatchFailsAsWritten | hanno/codegen/simplifier.py:220 | as written the first arm raises AttributeError because the surface `Block` class has no `new`; with it supplied, every match with an arm lowers |
| Simplifier.ToDecisionTree | hanno/codegen/simplifier.py:201-239 | the loop computes exactly the specification `DecisionTree`, so it too reduces each arm's test with the corrected `ReducePred` and builds blocks with the supplied `Block.new` |
| Simplifier.ChainAppend | hanno/codegen/simplifier.py:223-229 | folding the reversed branches nests a branch added at the end innermost |
| Simplifier.ChainStep | hanno/codegen/simplifier.py:217-230 | one turn of the loop of `to_decision_tree` keeps the tree equal to the branches so far around the tree of the remaining arms |
| Simplifier.Branches | hanno/codegen/simplifier.py:216-230 | one branch for each arm whose test can fail |
| Simplifier.DecisionTreeShape | hanno/codegen/simplifier.py:201-239 | the tree tests the arms in source order up to the first arm that always matches (or the last arm), whose consequence ends the chain without a test |
| Simplifier.TreeFromShape | hanno/codegen/simplifier.py:216-239 | the same for the tree built from a non-empty list of arms |
| Simplifier.ArmsAfterCatchAllDropped | hanno/codegen/simplifier.py:222-229 | the arms after the first arm that always matches play no part in the tree |
| Simplifier.Decompose | hanno/codegen/simplifier.py:147-192 | `decompose_irrefutable`: the only error is RefutablePatternError at the given position; a pair pattern gives a block marked `merge_parent` |
| Simplifier.DecomposeRefusesRefutable | hanno/codegen/simplifier.py:147-170 | decomposition refuses exactly the patterns the exhaustiveness check reports as able to fail to match |
| Simplifier.TargetsConcat | hanno/codegen/simplifier.py:182-190 | the names a spliced body defines are those of its parts, in order |
| Simplifier.DecomposeBindsPatternNames | hanno/codegen/simplifier.py:147-192 | a decomposed definition defines exactly the names the pattern binds, left to right |
| Simplifier.DecisionTreeLower | hanno/codegen/simplifier.py:118-120 | the decision tree nests fewer matches than the match it replaces, so lowering it again terminates (see also hanno/codegen/simplifier.py:201-239) |
| Simplifier.BranchBelow | hanno/codegen/simplifier.py:242-310 | a pattern's tests and definitions nest no more matches than the subject |
| Simplifier.FoldAndBelow | hanno/codegen/simplifier.py:365-370 | folding predicates with `_ast_and` nests no more matches than the seed and the predicates do |
| Simplifier.ReduceNodeBelow | hanno/codegen/simplifier.py:373-401 | reduction nests no more matches than the original predicate |
| Simplifier.TreeFromBelow | hanno/codegen/simplifier.py:216-239 | the tree nests no more matches than the subject and the arms |
| Simplifier.LowerApply | hanno/codegen/simplifier.py:56-68 | `visit_apply`: `~ arg` becomes the unary negation of `arg`; `op left right`, where `op` is the symbol of a native operation, becomes the binary operation with that symbol on `left` and `right`; a native operation is unary exactly when the function was `~`, and everything else stays an application of the lowered parts |
| Simplifier.Simplify | hanno/codegen/simplifier.py:43-144 | the count of renamed parameters only grows |
| Simplifier.SimplifyApply | hanno/codegen/simplifier.py:56-68 | a call lowers its function, then its argument, and the count of renamed parameters only grows |
| Simplifier.SimplifyCond | hanno/codegen/simplifier.py:80-85 | a conditional lowers its three parts in order, and the count only grows |
| Simplifier.SimplifyDefine | hanno/codegen/simplifier.py:87-89 | a definition lowers its value before decomposing its target, and the count only grows |
| Simplifier.SimplifyFunction | hanno/codegen/simplifier.py:91-109 | a pattern parameter is renamed with the next count before the body is lowered, and the count only grows |
| Simplifier.SimplifyPair | hanno/codegen/simplifier.py:122-123 | a pair lowers its first, then its second part, and the count only grows |
| Simplifier.SimplifyAll | hanno/codegen/simplifier.py:115-116 | each element is lowered in turn, and their number is kept |
| Simplifier.BlockBody | hanno/codegen/simplifier.py:70-78 | the children of a block are lowered in turn, with the count threaded through |
| Simplifier.PrependStep | hanno/codegen/simplifier.py:72-77 | one turn of the loop of `visit_block` |
| Simplifier.VisitBlock | hanno/codegen/simplifier.py:70-78 | the loop of `visit_block` computes exactly the lowering of the block that the specification `Simplify` gives, and the result is neither a block marked `merge_parent` nor a block holding one |
| Simplifier.BlockBodyIsSplicedLowering | hanno/codegen/simplifier.py:70-78 | the body of a lowered block is its children lowered in order, each child that is a block marked `merge_parent` replaced by that block's expressions; it fails exactly when lowering a child fails, with that error |
| Simplifier.LoweredSettled | hanno/codegen/simplifier.py:70-78 | every lowered node is settled: a block holds no block marked `merge_parent`, and a marked block holds no block at all (see also hanno/codegen/simplifier.py:147-193) |
| Simplifier.BlockBodyUnmarked | hanno/codegen/simplifier.py:74-77 | after splicing, no expression of a lowered block body is a block marked `merge_parent`, and each is settled |
| Simplifier.DecomposeSplicesNoBlock | hanno/codegen/simplifier.py:147-193 | decomposing a pattern against a value that is not a block yields no block among the steps it splices in |
| Simplifier.BuildBranchCases | hanno/codegen/simplifier.py:242-312 | `build_branch` per form: a unit pattern tests nothing; a free name tests nothing and defines itself as the subject unless it is `_`; `True` tests the subject, `False` its negation, another scalar equality with it; a pinned name tests equality with the name; a pair joins its parts' tests on `first` and `second` and concatenates their definitions; `[]` tests that the length is 0; a list with initial patterns tests the minimum length and each element, then defines the rest; `[..rest]` tests nothing and defines `rest` as the whole list |
| Simplifier.BuildBranchBindsPatternNames | hanno/codegen/simplifier.py:242-365 | the definitions of a branch bind exactly the names the pattern binds, each once, in the pattern's order |
| Simplifier.ElementBranchesBindInitialNames | hanno/codegen/simplifier.py:313-365 | the element definitions of a list pattern bind exactly the names its initial patterns bind, in order |
| Simplifier.SimplifyNegate | hanno/codegen/simplifier.py:58-59 | `~ arg` lowers to the native negation of the lowered argument |
| Simplifier.SimplifyBinary | hanno/codegen/simplifier.py:60-67 | `op left right`, for the text of any native operation but negation, lowers to that operation on the lowered operands |
| Simplifier.DefineInBlock | hanno/codegen/simplifier.py:74-89 | a definition fails exactly when its pattern can fail to match, and otherwise adds to its block definitions of exactly the names the pattern binds |
| Simplifier.ParamNameInjective | hanno/codegen/simplifier.py:97-98 | distinct counts give distinct parameter names |
| Simplifier.FunctionParamRenamed | hanno/codegen/simplifier.py:91-109 | a function whose parameter is a pattern gets a fresh `$FuncParam_n` parameter, with n one more than the count, and the pattern is decomposed from it |
| ConstantFolding.FloorDivMod | hanno/visitors/constant_folder.py:161-171 | Python's `floordiv` and `mod` on integers: the quotient and remainder rebuild the dividend, and the remainder lies between zero and the divisor, on the divisor's side |
| ConstantFolding.RepeatText | hanno/visitors/constant_folder.py:167-171 | `s * n` for a string: n copies, so the length is n times the string's, and none when n is not positive |
| ConstantFolding.FoldNegate | hanno/visitors/constant_folder.py:107-108 | `-left.value`: TypeError exactly for a string, and a float is left in place |
| ConstantFolding.FoldMath | hanno/visitors/constant_folder.py:139-171 | `fold_math`: the only errors are TypeError and ZeroDivisionError, and a folded value is never a boolean; a power with a negative exponent, a float in Python, is left unfolded |
| ConstantFolding.FoldCompare | hanno/visitors/constant_folder.py:174-203 | `fold_comparison`: a folded comparison is a boolean, and only `>` and `<` can raise TypeError, never `=` |
| ConstantFolding.Evaluate | hanno/visitors/constant_folder.py:107-136 | an operation whose left operand is not a scalar is never folded |
| ConstantFolding.NegateTwice | hanno/visitors/constant_folder.py:107-108 | negating an integer twice gives it back |
| ConstantFolding.DivModRebuild | hanno/visitors/constant_folder.py:161-171 | folding `x / y` and `x % y` on integers raises ZeroDivisionError for a zero divisor; otherwise `y * (x / y) + x % y` folds back to `x` |
| ConstantFolding.MulCommutes | hanno/visitors/constant_folder.py:167-171 | multiplication folds the same whichever operand comes first, for a string repeated by an integer as well as for numbers |
| ConstantFolding.CompareDuality | hanno/visitors/constant_folder.py:197-202 | `a > b` folds exactly as `b < a`, and `=` is symmetric |
| ConstantFolding.CompareTrichotomy | hanno/visitors/constant_folder.py:197-202 | two integers, or two strings, fold to true under exactly one of `<`, `=` and `>` |
| ConstantFolding.ExtendsTrans | hanno/scope.py:135-139 | extending a scope chain twice extends it |
| ConstantFolding.ExtendsPopped | hanno/visitors/constant_folder.py:60-67 | leaving a scope entered before folding keeps the names the enclosing chain had |
| ConstantFolding.SetExtends | hanno/visitors/constant_folder.py:83 | `current_scope[target] = value` extends the chain |
| ConstantFolding.Fold | hanno/visitors/constant_folder.py:43-120 | folding only adds constants to the scope chain and never removes one |
| ConstantFolding.FoldNativeOp | hanno/visitors/constant_folder.py:103-114 | both operands are folded, the left first, and the result is never marked for deletion |
| ConstantFolding.FoldBlock | hanno/visitors/constant_folder.py:61-66 | the expressions are folded in turn, the ones marked `delete` are dropped, and so the body never grows |
| ConstantFolding.FoldAll | hanno/visitors/constant_folder.py:95 | the elements are folded in turn, and their number is kept |
| ConstantFolding.BlockStep | hanno/visitors/constant_folder.py:61-66 | one turn of the loop over a block's expressions |
| ConstantFolding.ListStep | hanno/visitors/constant_folder.py:95 | one turn of the loop over a list's elements |
| ConstantFolding.ConstantFolder.constructor | hanno/visitors/constant_folder.py:53-54 | the folder starts with a single empty scope |
| ConstantFolding.ConstantFolder.Visit | hanno/visitors/constant_folder.py:43-120 | `visit` gives exactly the folded node the specification `Fold` gives, and leaves the scope chain as `Fold` does |
| ConstantFolding.ConstantFolder.VisitBlock | hanno/visitors/constant_folder.py:59-72 | `visit_block` folds inside a new scope, which it leaves afterwards; no expression left gives a unit and one gives itself, as `Fold` says |
| ConstantFolding.ConstantFolder.VisitList | hanno/visitors/constant_folder.py:94-95 | `visit_list` folds the elements in turn, as `Fold` says |
| ConstantFolding.ConstantFolder.VisitCond | hanno/visitors/constant_folder.py:74-78 | `visit_cond`: a predicate that folds to a scalar chooses the branch folded in place of the conditional, as `Fold` says |
| ConstantFolding.ConstantFolder.VisitDefine | hanno/visitors/constant_folder.py:80-86 | `visit_define`: a value that folds to a scalar is recorded in the scope and the definition is marked for deletion, as `Fold` says |
| ConstantFolding.ConstantFolder.VisitNativeOp | hanno/visitors/constant_folder.py:103-114 | `visit_native_op` folds the operands, then does the operation on scalars, as `Fold` says |
| ConstantFolding.CondOnConstant | hanno/visitors/constant_folder.py:76-77 | a conditional on a constant folds as the branch the constant's truth value chooses |
| ConstantFolding.ConstantPropagated | hanno/visitors/constant_folder.py:80-101 | in a block that defines a name as a constant and then uses it, the definition vanishes and the use becomes the constant; the enclosing scopes are unchanged |
| ConstantFolding.ConstantDefinitionsVanish | hanno/visitors/constant_folder.py:61-85 | a body made only of definitions of constants folds to no expression at all |
| ConstantFolding.ConstantBlockIsUnit | hanno/visitors/constant_folder.py:68-72 | a block made only of definitions of constants folds to a unit |
| ConstantFolding.EvaluateArithmetic | hanno/visitors/constant_folder.py:109-171 | `+`, `-` and `*` on integers fold to the sum, difference and product |
| ConstantFolding.FoldArithmeticStep | hanno/visitors/constant_folder.py:103-110 | an arithmetic operation whose operands fold to integers folds to its value |
| ConstantFolding.FoldNegateStep | hanno/visitors/constant_folder.py:103-108 | a negation whose operand folds to an integer folds to the opposite integer |
| ConstantFolding.FoldEvaluates | hanno/visitors/constant_folder.py:103-114 | any expression of integers built with `+`, `-`, `*` and negation folds, in any scope, to the single integer it evaluates to, and leaves the scope unchanged |
| InlineExpansion.Threshold | hanno/visitors/inline_expander.py:9 | `calc_threshold`: zero exactly at level zero, which lifts the limit; at least 20 at a positive level and negative at a negative one |
| InlineExpansion.ScoreBounds | hanno/visitors/inline_expander.py:38-84 | the `Scorer` weight lies between one and seven per inner node of the tree |
| InlineExpansion.ScoreZeroIffLeaf | hanno/visitors/inline_expander.py:38-84 | a tree weighs nothing exactly when it is a name, a scalar or a unit |
| InlineExpansion.ScoreAllBounds | hanno/visitors/inline_expander.py:50-64 | the same bounds for a sequence of trees |
| InlineExpansion.EraseAll | hanno/visitors/inline_expander.py:174-193 | rebuilding a sequence of nodes keeps their number |
| InlineExpansion.ReplaceAll | hanno/visitors/inline_expander.py:226-247 | `_Replacer` on a sequence keeps its length |
| InlineExpansion.ReplaceNotFree | hanno/visitors/inline_expander.py:215-266 | replacing a name that is not free in a tree changes nothing but the blocks' marks |
| InlineExpansion.ReplaceBySelf | hanno/visitors/inline_expander.py:215-266 | replacing a parameter by its own name changes nothing but the marks |
| InlineExpansion.ReplaceFreeNames | hanno/visitors/inline_expander.py:239-253 | after `inline_function` the only free names are those of the body other than the parameter and those of the argument; a function rebinding the parameter shields its body |
| InlineExpansion.Candidates | hanno/visitors/inline_expander.py:87-139 | the functions `Finder` collects: a function comes after every function in its body |
| InlineExpansion.CandidatesAreFunctions | hanno/visitors/inline_expander.py:115-117 | `Finder` collects only `Function` nodes |
| InlineExpansion.FuncsOf | hanno/visitors/inline_expander.py:94 | `finder.funcs` holds one function per candidate |
| InlineExpansion.DefinedPositionsExact | hanno/visitors/inline_expander.py:95-113 | the recorded positions are exactly those of the functions bound by a definition |
| InlineExpansion.FuncsOfAt | hanno/visitors/inline_expander.py:117 | `funcs` lists the candidates' functions in order |
| InlineExpansion.MarkLastDefined | hanno/visitors/inline_expander.py:110-113 | a definition of a function marks that function, the last one collected, and leaves `funcs` unchanged |
| InlineExpansion.Finder.constructor | hanno/visitors/inline_expander.py:93-95 | `Finder` starts with no functions and none defined |
| InlineExpansion.Finder.Visit | hanno/visitors/inline_expander.py:97-139 | `visit` appends exactly the functions of the tree, each after those of its body, and marks exactly those bound by a definition |
| InlineExpansion.Finder.VisitBoth | hanno/visitors/inline_expander.py:97-125 | two children visited in turn append their functions in order |
| InlineExpansion.Finder.VisitDefine | hanno/visitors/inline_expander.py:110-113 | `visit_define`: the value's functions, with the value marked when it is a function |
| InlineExpansion.Finder.VisitFunction | hanno/visitors/inline_expander.py:115-117 | `visit_function`: the body's functions, then the function |
| InlineExpansion.Finder.VisitAll | hanno/visitors/inline_expander.py:101-121 | the loops of `visit_block` and `visit_list` append the functions of each child in order |
| InlineExpansion.Appended | hanno/visitors/inline_expander.py:94-95 | recording two sequences of functions one after the other records their concatenation |
| InlineExpansion.SelectedSound | hanno/visitors/inline_expander.py:298-302 | every function `generate_targets` keeps is one of the functions found, whose score (1 more if defined, 3 more if not) the threshold allows |
| InlineExpansion.SelectedComplete | hanno/visitors/inline_expander.py:298-302 | every function found whose score the threshold allows is kept |
| InlineExpansion.SelectedAll | hanno/visitors/inline_expander.py:295-301 | a threshold of zero keeps every function |
| InlineExpansion.SelectedNone | hanno/visitors/inline_expander.py:301 | a negative threshold keeps nothing |
| InlineExpansion.GenerateTargets | hanno/visitors/inline_expander.py:269-303 | the loop of `generate_targets` keeps, in order, exactly the functions the specification `Selected` keeps |
| InlineExpansion.AnyEqWitness | hanno/visitors/inline_expander.py:155-157 | a node that `is_target` finds equal to the targets is equal to one of them |
| InlineExpansion.OwnEqHolds | hanno/asts/lowered.py:52-241 | two nodes are equal only when the first one's own `__eq__` says so; no reflected comparison ever answers true |
| InlineExpansion.IntendedEqScore | hanno/visitors/inline_expander.py:38-84 | nodes equal as intended weigh the same |
| InlineExpansion.TargetsAreCheap | hanno/visitors/inline_expander.py:152-157 | with blocks compared as intended, every function `is_target` accepts scores within a positive threshold (see also hanno/visitors/inline_expander.py:298-302) |
| InlineExpansion.TargetsAsWrittenNotCheap | hanno/visitors/inline_expander.py:152-157 | as written, a function whose body block merely begins like a cheap target's body is accepted too, though its body alone weighs 26 against a threshold of 20 |
| InlineExpansion.ExampleScores | hanno/visitors/inline_expander.py:38-84 | the two sample bodies weigh 5 and 26 |
| InlineExpansion.ExampleSelected | hanno/visitors/inline_expander.py:298-302 | at threshold 20 only the light sample is a target |
| InlineExpansion.ExampleEquality | hanno/asts/lowered.py:85-91 | the heavy sample equals the light one as written, but not as intended |
| InlineExpansion.InlineBindsTargets | hanno/visitors/inline_expander.py:183-187 | the inliner's scope binds names only to targets |
| InlineExpansion.InlineNothing | hanno/visitors/inline_expander.py:142-212 | without targets nothing is inlined and nothing is bound; the tree is only rebuilt |
| InlineExpansion.InlineNamedApplication | hanno/visitors/inline_expander.py:165-170 | applying a name bound to a target to a name, a scalar or a unit gives the target's body with the argument in place of its parameter |
| InlineExpansion.Inliner.constructor | hanno/visitors/inline_expander.py:148-150 | the inliner starts with an empty scope and the given targets |
| InlineExpansion.Inliner.Visit | hanno/visitors/inline_expander.py:142-212 | `visit` gives exactly the node and the scope that the specification `Inline` gives; `Inline` recognises targets with the corrected `IsTarget`, which compares blocks by their whole bodies, not with the `zip` equality of the code (Findings) |
| InlineExpansion.Inliner.VisitApply | hanno/visitors/inline_expander.py:165-171 | `visit_apply` agrees with `Inline`; `Inline` recognises targets with the corrected `IsTarget`, which compares blocks by their whole bodies, not with the `zip` equality of the code (Findings) |
| InlineExpansion.Inliner.VisitDefine | hanno/visitors/inline_expander.py:183-187 | `visit_define` agrees with `Inline`; `Inline` recognises targets with the corrected `IsTarget`, which compares blocks by their whole bodies, not with the `zip` equality of the code (Findings) |
| InlineExpansion.Inliner.VisitAll | hanno/visitors/inline_expander.py:173-193 | the list comprehensions of `visit_block` and `visit_list` agree with `Inline`, child by child; `Inline` recognises targets with the corrected `IsTarget`, which compares blocks by their whole bodies, not with the `zip` equality of the code (Findings) |
| InlineExpansion.ExpandInline | hanno/visitors/inline_expander.py:15-35 | `expand_inline` finds the functions, chooses the cheap ones and gives exactly the tree `Inline` gives with them |
| InlineExpansion.NegativeLevelInlinesNothing | hanno/visitors/inline_expander.py:9 | a negative level inlines nothing (see also hanno/visitors/inline_expander.py:301) |
| InlineExpansion.LevelZeroTargetsAll | hanno/visitors/inline_expander.py:9 | level zero makes every function of the tree a target (see also hanno/visitors/inline_expander.py:295) |
| InlineExpansion.InlinedFunctionsCheap | hanno/visitors/inline_expander.py:15-35 | at a positive level every function inlined, compared as intended, scores within `calc_threshold(level)` |
| InstructionGeneration.Allocated | hanno/codegen/main.py:119-155 | a name already in the scope chain changes nothing; a new name gets the next slot of the innermost scope, and the index moves past it |
| InstructionGeneration.EnterFunction | hanno/codegen/main.py:128-131 | entering a function saves the index, pushes a scope, raises the function level and numbers the parameter 0, so the next name gets slot 1 |
| InstructionGeneration.NativeCode | hanno/codegen/main.py:14-26 | `NATIVE_OP_CODES` numbers the eleven native operations from 1 to 11 |
| InstructionGeneration.Gen | hanno/codegen/main.py:93-181 | compiling a node never leaves a scope pushed or a function level raised |
| InstructionGeneration.GenAll | hanno/codegen/main.py:102-139 | the same for a sequence of nodes compiled left to right |
| InstructionGeneration.GenAllStep | hanno/codegen/main.py:102 | compiling a sequence is compiling its first node, then the rest from the state it leaves |
| InstructionGeneration.CodeSize | hanno/codegen/main.py:93-181 | the length of a node's code depends on the tree alone, not on the scopes, the slot numbering or how parameters are bound |
| InstructionGeneration.CodeSizeAll | hanno/codegen/main.py:102-139 | the same for a sequence of nodes |
| InstructionGeneration.CondJumps | hanno/codegen/main.py:106-115 | the branch after the predicate skips exactly the consequent and the jump, landing on the alternative, and the jump after the consequent skips exactly the alternative, landing just past the conditional |
| InstructionGeneration.ScopeRestored | hanno/codegen/main.py:84-135 | after a block or a function the index, the saved indexes, the function level and the depth of the chain are as they were before |
| InstructionGeneration.KeepsTrans | hanno/codegen/main.py:84-91 | keeping the enclosing scopes is transitive |
| InstructionGeneration.AllocatedNumbered | hanno/codegen/main.py:119-155 | numbering a new name keeps every scope's slots distinct and below that scope's next index |
| InstructionGeneration.PushedNumbered | hanno/codegen/main.py:84-87 | a pushed scope is empty, and the scope it encloses is numbered below the index just saved |
| InstructionGeneration.PoppedRestores | hanno/codegen/main.py:89-91 | leaving a scope whose enclosing scopes were kept gives back the state from before it was entered |
| InstructionGeneration.LocalKeepsNumbering | hanno/codegen/main.py:93-181 | with the parameter bound in the function's own scope, compiling keeps the slots of every scope distinct, changes only the innermost scope, and a block or function leaves no trace in the state |
| InstructionGeneration.KeepsBoth | hanno/codegen/main.py:93-150 | two nodes compiled one after the other keep the numbering |
| InstructionGeneration.BlockLeavesNoTrace | hanno/codegen/main.py:100-104 | a block's scope is pushed and popped around its body, and the state after it is the state before |
| InstructionGeneration.FunctionLeavesNoTrace | hanno/codegen/main.py:127-135 | a function with its parameter in its own scope leaves the state as it was |
| InstructionGeneration.LocalKeepsNumberingAll | hanno/codegen/main.py:102-139 | the same for a sequence of nodes |
| InstructionGeneration.FunctionScopeNumbered | hanno/codegen/main.py:128-131 | a function's own scope, holding only its parameter at slot 0, is numbered |
| InstructionGeneration.DefineSlot | hanno/codegen/main.py:117-125 | a definition compiles its value, then stores to the target's slot: a new slot of the innermost scope for a new name, the slot it has otherwise, and nothing else changes |
| InstructionGeneration.UnboundName | hanno/codegen/main.py:152-160 | a name seen for the first time gets the next slot of the innermost scope and is loaded from there at depth 1 |
| InstructionGeneration.StillUnbound | hanno/codegen/main.py:153-155 | numbering one name leaves every other unbound name unbound |
| InstructionGeneration.PairVisitsSecondFirst | hanno/codegen/main.py:145-150 | a pair compiles its second element first, so of two new names the second gets the lower slot |
| InstructionGeneration.ApplyVisitsArgFirst | hanno/codegen/main.py:93-98 | an application compiles its argument before the function |
| InstructionGeneration.CondVisitsBranchesFirst | hanno/codegen/main.py:106-115 | a conditional compiles its consequent, then its alternative, and its predicate last, though the predicate's code comes first |
| InstructionGeneration.ParamModesAgree | hanno/codegen/main.py:130 | binding the parameter through `Scope.__setitem__`, as written, and binding it in the function's own scope agree unless an enclosing scope already binds the parameter's name (see also hanno/scope.py:135-139) |
| InstructionGeneration.DefineScalar | hanno/codegen/main.py:117-178 | a scalar defined under a new name is loaded and stored to the next slot |
| InstructionGeneration.InnermostName | hanno/codegen/main.py:152-160 | a name bound by the innermost scope is loaded at depth 1 from its slot, and nothing changes |
| InstructionGeneration.FunctionUnfold | hanno/codegen/main.py:127-135 | a function's code is one `LOAD_FUNC` holding the body's code compiled in the function's scope |
| InstructionGeneration.ParamRebound | hanno/codegen/main.py:130 | as written, a parameter whose name the enclosing scope binds rebinds that name there to 0 and the function's own scope stays empty (see also hanno/scope.py:135-139) |
| InstructionGeneration.EnclosingName | hanno/codegen/main.py:157-158 | inside a function, a name bound in an enclosing scope is loaded at depth 0 |
| InstructionGeneration.IdentityAsWritten | hanno/codegen/main.py:127-160 | as written, `\x -> x` with `x` bound outside loads the parameter at depth 0 and leaves the enclosing `x` at slot 0 |
| InstructionGeneration.IdentityIntended | hanno/codegen/main.py:127-160 | with the parameter bound in the function's own scope, `\x -> x` loads slot 0 of its own scope and the state is as before |
| InstructionGeneration.ExampleHead | hanno/codegen/main.py:100-125 | in a block, the first two new names defined get slots 0 and 1 |
| InstructionGeneration.ExampleTail | hanno/codegen/main.py:117-160 | the function defined next gets slot 2, and the last `x` is loaded from the slot the function left `x` with |
| InstructionGeneration.ParamExample | hanno/codegen/main.py:100-160 | the whole block's code, for either way of binding the parameter |
| InstructionGeneration.ParamRebindsEnclosingSlot | hanno/codegen/main.py:127-135 | as written, after `y = a; x = b; f = \x -> x`, the use of `x` loads slot 0 though `x` was stored to slot 1 (see also hanno/scope.py:135-139) |
| InstructionGeneration.ParamKeepsEnclosingSlot | hanno/codegen/main.py:127-135 | with the parameter bound in the function's own scope, the same use of `x` loads slot 1, where it was stored |
| InstructionGeneration.VisitedOneMore | hanno/codegen/main.py:102-139 | one turn of the loop over a sequence of nodes |
| InstructionGeneration.InstructionGenerator.constructor | hanno/codegen/main.py:78-82 | the generator starts at index 0, with no saved indexes, one empty scope and function level 0 |
| InstructionGeneration.InstructionGenerator.PushScope | hanno/codegen/main.py:84-87 | `_push_scope` pushes an empty scope, saves the index and restarts it at 0 |
| InstructionGeneration.InstructionGenerator.PopScope | hanno/codegen/main.py:89-91 | `_pop_scope` drops the innermost scope and restores the saved index |
| InstructionGeneration.InstructionGenerator.Allocate | hanno/codegen/main.py:119-155 | the numbering step of `visit_define` and `visit_name` updates the fields as `Allocated` says |
| InstructionGeneration.InstructionGenerator.Visit | hanno/codegen/main.py:93-181 | `visit` gives exactly the code and the new state that the specification `Gen` gives |
| InstructionGeneration.InstructionGenerator.VisitBlock | hanno/codegen/main.py:100-104 | `visit_block` agrees with `Gen` |
| InstructionGeneration.InstructionGenerator.VisitCond | hanno/codegen/main.py:106-115 | `visit_cond` agrees with `Gen` |
| InstructionGeneration.InstructionGenerator.VisitFunction | hanno/codegen/main.py:127-135 | `visit_function` agrees with `Gen` |
| InstructionGeneration.InstructionGenerator.VisitNativeOp | hanno/codegen/main.py:162-169 | `visit_native_op` agrees with `Gen` |
| InstructionGeneration.InstructionGenerator.VisitAll | hanno/codegen/main.py:102-139 | the loop over a sequence agrees with `GenAll` |
| InstructionGeneration.GenerateInstructions | hanno/codegen/main.py:203 | `InstructionGenerator().run(ast)` gives exactly the code `Gen` gives from the initial state |
| Bytes.FromBytes | hanno/codegen/main.py:377-379 | the big-endian value of `n` bytes is below 256 to the power `n` |
| Bytes.UnsignedBytes | hanno/codegen/main.py:377-379 | `n.to_bytes(width)` for a fitting `n`: exactly `width` bytes whose big-endian value is `n` |
| Bytes.ToBytes | hanno/codegen/main.py:392-393 | `int.to_bytes`: OverflowError exactly when the value does not fit the width, signed or not; otherwise `width` bytes that read back as the value |
| Bytes.LJust | hanno/codegen/main.py:333 | `bytes.ljust`: the bytes kept in front, padded with the fill byte up to the width |
| Bytes.Utf8Char | hanno/codegen/main.py:414 | one character encodes to one to four UTF-8 bytes |
| Bytes.Utf8 | hanno/codegen/main.py:414 | a text encodes to between one and four bytes per character |
| Bytes.Utf8Ascii | hanno/codegen/main.py:414 | ASCII text encodes to its own character codes, one byte each |
| Codegen.OpCode | hanno/codegen/main.py:29-50 | every instruction's opcode is one of the fourteen numbers 0 to 13 |
| Codegen.EncodeOperands | hanno/codegen/main.py:368-388 | `encode_operands`: at most seven operand bytes, and the pools only grow; LOAD_BOOL's single operand byte is `0xff` for true and `0x00` for false |
| Codegen.EncodeLoadString | hanno/codegen/main.py:413-416 | `_encode_load_string`: the UTF-8 text becomes the last string-pool entry, and the seven operand bytes are its index |
| Codegen.EncodeLoadFunc | hanno/codegen/main.py:419-423 | `_encode_load_func`: the body's own encoding becomes the last function-pool entry, after the entries the body adds, and the seven operand bytes are its index |
| Codegen.EncodeStream | hanno/codegen/main.py:325-335 | `encode_instructions`: eight bytes per instruction, each slot starting with the instruction's opcode, and the pools only grow |
| Codegen.PoolBuilder.constructor | hanno/codegen/main.py:204 | encoding starts with empty function and string pools |
| Codegen.EncodeStep | hanno/codegen/main.py:326-334 | encoding a stream is encoding its first instruction's slot, then the rest with the pools that slot leaves; an error in the first stops it |
| Codegen.WriteSlot | hanno/codegen/main.py:334 | `result_stream[start:end] = ...` writes exactly the eight bytes of one slot and leaves the slots after it alone |
| Codegen.EncodeInstructions | hanno/codegen/main.py:299-335 | the loop over a zeroed buffer of eight bytes per instruction fails exactly when `EncodeStream` does, and otherwise fills the buffer with exactly its bytes and leaves the pools as it says |
| Codegen.EncodeOperandsInto | hanno/codegen/main.py:338-388 | `encode_operands` on pools updated in place agrees with `EncodeOperands` |
| Codegen.EncodePool | hanno/codegen/main.py:210-227 | `encode_pool` fails exactly when an entry's length needs more than four bytes, and otherwise gives four length bytes plus the entry for each entry |
| Codegen.GenerateHeader | hanno/codegen/main.py:230-262 | the header is `F:`, `S:` and `C:` each with a four-byte size, then `E:` and the encoding's name padded to twelve bytes; OverflowError exactly when a size does not fit four bytes |
| Compressor.ExpandAppend | hanno/codegen/compressor.py:26-54 | expanding runs distributes over concatenation |
| Compressor.ExtendRuns | hanno/codegen/compressor.py:43-51 | one more byte either lengthens the last run or starts a new one, keeping the runs maximal and their expansion the bytes read so far |
| Compressor.RunsOfCorrect | hanno/codegen/compressor.py:26-54 | `generate_lengths` yields maximal runs, no two neighbours with the same byte, that expand back to the input, and none exactly for the empty input |
| Compressor.GenerateLengths | hanno/codegen/compressor.py:26-54 | the loop of `generate_lengths` yields exactly the runs of the specification `RunsOf` |
| Compressor.SplitCorrect | hanno/codegen/compressor.py:94-97 | a run is split into pieces of at most 255 that together repeat the byte the same number of times, and no piece of a non-empty run is empty |
| Compressor.NormalisedCorrect | hanno/codegen/compressor.py:77-97 | `normalise` keeps the expansion and leaves every run at most 255 long |
| Compressor.Normalise | hanno/codegen/compressor.py:77-97 | the loop of `normalise` yields exactly `Normalised` |
| Compressor.Pairs | hanno/codegen/compressor.py:72-74 | two bytes per run, the count and then the byte |
| Compressor.RebuildStream | hanno/codegen/compressor.py:57-74 | `rebuild_stream` writes two bytes per normalised run |
| Compressor.Compress | hanno/codegen/compressor.py:6-23 | `compress` never lengthens its input: it returns the input unchanged, or a strictly shorter run-length encoding of it |
| Slices.Take | tools/disassemble.py:68 | `source[i:i+n]` from the start: n bytes, or what is left |
| Slices.Drop | tools/disassemble.py:79 | `source[n:]`: the bytes after the first n, none if there are fewer |
| Disassemble.Decompress | tools/disassemble.py:130-141 | the loop of `decompress` gives exactly the specification `Decompressed`: each pair of bytes becomes its count of copies of its byte, and a lone trailing byte is kept |
| Disassemble.Repeat | tools/disassemble.py:135 | `bytes([byte] * count)`: count copies of the byte |
| Disassemble.DecompressTurn | tools/disassemble.py:134-137 | one turn of the loop over a full pair |
| Disassemble.DecompressLast | tools/disassemble.py:139-141 | the leftover chunk after the loop completes the output |
| Disassemble.DecompressStep | tools/disassemble.py:134-137 | decompressing from a pair is that pair's copies followed by the rest decompressed |
| Disassemble.DecompressPairs | tools/disassemble.py:130-141 | decompressing the count-and-byte pairs of runs of at most 255 gives their expansion |
| Disassemble.DecompressRebuild | tools/disassemble.py:130-141 | `decompress` inverts `rebuild_stream(generate_lengths(...))`: every byte string comes back |
| Disassemble.CompressRecoverable | tools/disassemble.py:130-141 | whatever `compress` returns gives the original back: either unchanged, or by decompressing |
| Disassemble.GetPool | tools/disassemble.py:92-103 | the loop of `get_func_pool` (and of `get_str_pool`) reads exactly the entries of `PoolEntries` and returns the input after the pool |
| Disassemble.PoolEntriesDone | tools/disassemble.py:96 | once the index reaches the pool size nothing more is read, so the entries collected are the whole pool |
| Disassemble.ReadEntry | tools/disassemble.py:97-102 | one turn of the loop reads a four-byte length and then that many bytes |
| Disassemble.DropDrop | tools/disassemble.py:97-102 | dropping twice drops the sum |
| Disassemble.EncodePoolCons | hanno/codegen/main.py:226-227 | an encoded pool is its first entry's length and bytes followed by the rest encoded |
| Disassemble.PoolRoundTrip | tools/disassemble.py:92-103 | reading a pool written by `encode_pool`, whatever follows it, gives back exactly its entries |
| Disassemble.PoolParts | tools/disassemble.py:97-102 | the length, the entry and what follows are cut apart exactly |
| Disassemble.PoolEntriesStep | tools/disassemble.py:96-102 | reading a pool is reading its first entry, then the rest |
| Disassemble.GetPoolInvertsEncodePool | tools/disassemble.py:92-103 | `get_func_pool` inverts `encode_pool`: the entries come back and the remainder is what followed the pool |
| Disassemble.GetNameArgs | tools/disassemble.py:38-43 | `get_name_args`: the depth read from the first three bytes is below 256 cubed |
| Disassemble.GetNameArgsInvertsLoadName | tools/disassemble.py:38-43 | `get_name_args` reads back the depth and index that `encode_operands` wrote for LOAD_NAME |

## Left out

- The older `hasdrubal/` tree, except `hasdrubal/lex/main.py`, is not part of this model. Its parser, inference, code generator and inliner are superseded duplicates of the `hanno/` ones.
- The command line, file reading and writing, exit codes and logging (`hanno/args.py`, `hanno/run.py`, `hanno/main.py`) are not modelled, because they are I/O.
- Error message rendering (`to_json`, `to_alert_message`, `to_long_message`, `beautify`) is not modelled. Errors are `CompilerError` values that carry their span.
- The pretty printers of `hanno/format.py` are not modelled. They are output formatting only.
- `to_utf8` and `try_filesys_encoding` are not modelled. They depend on codec tables and the filesystem encoding.
- `lex/tokens.py` and `asts/typed.py` hold enums and node classes, which datatypes replace. Of `asts/visitor.py`, only the rule that a visitor class must define every abstract `visit_*` method is modelled (`Visitors.Instantiate`). Its dispatch by node class is a `match`.
- Floating point: `_encode_load_float` and `get_float_value` are not modelled. A float literal is kept as its text, and `Codegen` gives a `LOAD_FLOAT` no operand bytes.
- `encode_all` is not modelled. `compress` returns bytes, but `hanno/codegen/main.py:295` unpacks its result as a pair. The parts it calls (`Codegen`, `Compressor`) are modelled separately.
- `tools/disassemble.py`: `main`, `get_headers` and `decode_file` are not modelled. They read files, and `decode_file` looks for a compression flag that `encode_all` never writes.
- `tools/disassemble.py`: `get_instructions` is not modelled, because its index never advances and the loop cannot end on a non-empty stream.
- Parse.ParseStmt: type annotations (`name :: type`), `impl` and `trait` statements and the parsing of type expressions are not modelled. A `::` after a statement is reported as an unexpected token.
- Parse.Stream: the cursor over the token sequence stands in for the `TokenStream` the parser reads. Its own methods are bookkeeping and have no row.
- Unification.Unify: it takes a fuel bound. `OutOfFuel` stands for a recursion deeper than the fuel, where the source would recurse further.
- Unification.Merge: it takes the same fuel bound as `Unify`.
- Inference.Solve: it takes the fuel bound of `Unify`. `SolveEquations` and `InferTypes` pass the bound on.
- Inference.InferTypes: the solution is proved to solve the equations only when they are shallow, a scheme appearing only at the top of a side. The generator yields such equations when the operators' types are shallow and every definition stands as a statement, at the top of the program or inside a block, and never where its value is used (`Inference.Statement`). A definition used as a value, say as an argument, a branch, an element or the last expression of a block used as a value, puts a scheme under an arrow or a constructor, which `instantiate` does not open. For those programs no soundness is stated.
- Inference.PatternName: a scalar pattern has a `value` too (hanno/asts/base.py:284-287), and the parser accepts one as a `let` target or a `\` parameter, so the code stores a definition or a parameter under the scalar's Python value (hanno/scope.py:113-139 keys the scope by `value`). The model stores names under text only and gives AttributeError for a scalar pattern, so `let 1 = 2` and `\0 -> 1`, which the code types, fail here. Modelling it would key the scope by Python values, where a string scalar shares its key with the name of that text and `True` shares one with `1`.
- Inference.ConstraintGenerator.VisitDefine: a scalar target such as `let 1 = 2` gives AttributeError (through `Inference.PatternName`), where `visit_define` (hanno/type_inference/main.py:105-120) binds the scalar's value in the scope and types the definition.
- Inference.ConstraintGenerator.VisitFunction: a scalar parameter such as `\0 -> 1` gives AttributeError (through `Inference.PatternName`), where `visit_function` (hanno/type_inference/main.py:122-134) binds the scalar's value in the child scope and types the function.
- Inference.SolveEquations: it computes `Inference.Solve`, which calls `unify(Equation(left, right))`; the code's two-argument call raises TypeError on the first equation (Findings row hanno/type_inference/main.py:36, `Inference.UnifyCallAsWritten`).
- Inference.InferTypes: it solves the equations with the one-argument call the code intends, not the two-argument `utils.unify(left, right)` that raises TypeError on the first equation (Findings row hanno/type_inference/main.py:36).
- Inference.InferTypes: it solves with the corrected `Unifier.SolveUnder`, not the written fold of `unify` and `merge_substitutions`, which can lose a binding (Findings row hanno/type_inference/utils.py:95-101).
- Inference.InferTypes: it models `infer_types` as if `ConstraintGenerator` and `Substitutor` could be built; as written, both constructors raise TypeError on every program (Findings). `ConstraintGenerator` defines no rule for `match`, annotations, implementations or traits, and the model gives TypeError for a `match`.
- Exhaustiveness.Check: it models the checker as if `ExhaustivenessChecker` could be built; as written, its constructor raises TypeError on every tree (Findings).
- StringExpander.ExpandNode: it models the expander as if `StringExpander` could be built; as written, its constructor raises TypeError on every tree (Findings).
- StringExpander.Chr: a surrogate code point (0xD800–0xDFFF) gives `ValueError`, where Python's `chr` builds a lone surrogate. Dafny's `char` has no lone surrogates.
- Disassemble.GetPool: it models the loop shared by `get_func_pool` and `get_str_pool`, not the UTF-8 decoding `get_str_pool` applies to each entry.
- ConstantFolding: float arithmetic and comparison are not folded, and neither is `%` formatting of strings. A float's truth value is taken to be "some digit 1–9 appears in its literal".
- ConstantFolding: `metadata["delete"]` is modelled as a flag returned with each folded node.
- InlineExpansion: `lru_cache` on `is_target` and `name_is_target` is left out. The model looks a name up in the current scope on every call. A cached answer of `name_is_target` can be stale once the scope changes, and that staleness is not modelled.
- InlineExpansion: the source keeps `defined_funcs` as a set of function objects. Here a function is identified by its position in `funcs`.
- InlineExpansion: recursive functions are not excluded from inlining, as in the source. Each application is expanded once, in a single pass over the tree.
- InstructionGeneration: `current_scope` is a chain of maps held as a value (`Scopes.Chain`), not a `Scopes.Scope` object. The passes never share a scope between two owners, so aliasing is not modelled there. The same holds for ConstantFolding and Inference.
- Lexer.LexNumber: digits are the ASCII digits `0`–`9`. The source's `str.isdecimal` (hasdrubal/lex/main.py:362, 368) also accepts other Unicode decimal digits, such as `٣`.
- Lexer.LexName: letters are the ASCII letters. The source's `str.isalpha` and `str.isalnum` (hasdrubal/lex/main.py:138, 177) also accept other Unicode letters, so `café` is one name there and `caf` followed by an illegal character here.
- Lexer.LexWord: its dispatch uses the same ASCII classes (hasdrubal/lex/main.py:175-177), so a character that is a Unicode letter or digit but not an ASCII one is illegal here.
- ConstantFolding.FoldMath: `x ^ y` with integers and a negative `y` is a float in Python (`2 ^ -1` is 0.5). Floats are not modelled, so the model leaves that operation unfolded, where the source folds it to a float scalar.
- Unification.Instantiate: the bound variables of a scheme get their fresh variables in increasing order of name. The source iterates a set, whose order is not specified. `Unification.Merge` visits the shared keys in the same sorted order.
- Ast.PatternEq: a pinned name pattern also equals a `Name` expression with the same text (hanno/asts/base.py:278-281). Patterns and expressions are separate datatypes here and the model never compares one with the other, so that case is not modelled.
- Simplifier.Decompose: the RefutablePatternError it raises carries the pattern position only. The source also reports the offending pattern.
- Parse.ParseGroup: the sub-parses are stated exactly only where the operand is a single name: `(x)`, `[x]`, `\x -> b`, `if a then b else c`, `op x`, `^x`. The same holds for Parse.ParseList, Parse.InfixOp, Parse.ParseIf, Parse.ParseFunc, Parse.ParseFactorPattern and Parse.ParseListPattern. The parser is a set of methods over a token cursor, and no function gives the parse of an arbitrary token sequence to compare with.
- Unifier.UnifySound: soundness is proved for types without schemes, which are instantiated before unification. No lemma states completeness, that a solvable equation is never rejected.
- Unification.Unify: no soundness lemma is stated for the code as written, because it is not sound (Findings). Its occurs check looks only at the equation in hand, so merging can still record a cycle (`Unification.ChaseLoopsOnCycle`).
- AstSorter.TopologicalSortExprs: with two or more expressions the code returns the keys of its dependency map, which are the block's original expressions, so blocks nested in them come back unsorted; the model returns the rebuilt expressions, which is what the corrected keying in the Findings row gives.
- AstSorter.TopologicalSorter.VisitBlock: the dependency map is a dictionary keyed by expressions, and names, scalars and units compare by value, so two equal such expressions in one block (say `x` twice) share one entry and only one of them is kept; the model keys the expressions by position and keeps both.
- AstSorter.TopologicalSorter.VisitMatch: each arm's dependencies are computed with the corrected `PinnedNames` (through `DepsArm`). The code's `visit_pattern` calls `find_pinned_names` as written (hanno/visitors/ast_sorter.py:122-137, 227, 238-239), so for the arm pattern `(^a, b)` the code's match depends on `b` and the model's on `a`. See the Findings row hanno/visitors/ast_sorter.py:122-137 (AstSorter.PinnedInPairAsWritten, AstSorter.PinnedNamesNotBound).
- Simplifier.DecisionTree: each arm's test is reduced with the corrected `ReducePred` (through `ArmTest`). The code calls `reduce_pred` as written (hanno/codegen/simplifier.py:221), which drops the test of a pattern such as `(x, 1)` and so ends the chain at that arm as if it always matched. See the Findings row hanno/codegen/simplifier.py:391-400 (Simplifier.PairTestDropped, Simplifier.ReducePredSound). Each arm's block is built with the supplied `Block.new` of the Findings row hanno/codegen/simplifier.py:220.
- Simplifier.ToDecisionTree: it computes `Simplifier.DecisionTree`, so it also uses the corrected `ReducePred` and the supplied `Block.new`, and it differs from the code as written on the same inputs (`(x, 1)` as an arm pattern).

## Findings

| source | as written | input that shows it | evidently intended | confidence | as-written member | corrected member |
|---|---|---|---|---|---|---|
| hanno/asts/types_.py:55-59 | `tuple_` puts each remaining element in front of the pair built so far, walking forwards | `[a, b, c, d]` gives `(b, (a, (c, d)))` | the right-nested tuple `(a, (b, (c, d)))` with the components in order | high, not executed | Types.TupleAsWrittenReordersFour | Types.TupleComponents |
| hanno/type_inference/utils.py:198-202 | `substitute` follows a variable's chain through the substitution with no cycle check, while merging (lines 95-101) can record `a: b` and `b: a` | `(a, b) ~ (b, a)`: its parts give `a: b` and `b: a`, merged into one substitution, and substituting `a` then never ends | every chain ends at a non-variable type or an unbound variable | medium, not executed | Unification.ChaseLoopsOnCycle | Unification.ResolveEnds |
| hanno/codegen/simplifier.py:391-400 | `reduce_pred` joins two tests with `and`, so a missing left test (`None`) drops the right one, and otherwise only the right one survives | the pair pattern `(x, 1)`: its test that the second part is 1 is lost | the conjunction of both tests, with a missing test standing for true | high, not executed | Simplifier.PairTestDropped | Simplifier.ReducePredSound |
| hanno/visitors/ast_sorter.py:122-137 | `find_pinned_names` calls `find_free_names` on the parts of pair and list patterns | `(^a, b)` gives `{b}` | the pinned names of the parts: `{a}` | high, not executed | AstSorter.PinnedInPairAsWritten | AstSorter.PinnedNamesNotBound |
| hanno/visitors/ast_sorter.py:166-180 | the dependency map is keyed by the block's old expressions, while the definitions map points at the rebuilt `Define` nodes, so an expression that uses a name the block defines never becomes ready and is dropped | `let x = 1` followed by `x`: the use of `x` is lost | every expression kept, each after the definitions it uses | high, not executed | AstSorter.DefineThenUse | AstSorter.RankedKeepsAll |
| hanno/codegen/simplifier.py:220 | the decision tree calls `base.Block.new`, which does not exist | any `match` with at least one arm raises `AttributeError` | a block of the arm's bindings followed by its body | high, not executed | Simplifier.EveryMatchFailsAsWritten | Simplifier.DecisionTreeShape |
| hanno/asts/lowered.py:85-91 | `Block.__eq__` compares its bodies with `zip`, which stops at the shorter one, and `is_target` relies on that equality | a function whose body begins like a cheap target's but weighs 26 is inlined under a threshold of 20 | blocks equal only when their bodies have the same length, so only functions within the threshold are inlined | high, not executed | InlineExpansion.TargetsAsWrittenNotCheap | InlineExpansion.TargetsAreCheap |
| hanno/codegen/main.py:130 | `visit_function` sets the parameter to slot 0 with `current_scope[param] = 0`, and `Scope.__setitem__` (hanno/scope.py:135-139) rebinds the name wherever an enclosing scope holds it | after `y = a` and `x = b`, the function `\x -> x` leaves the outer `x` at slot 0, so a later use of `x` loads slot 0 instead of slot 1 | the parameter bound in the function's own scope, the enclosing slots left alone | medium, not executed | InstructionGeneration.ParamRebindsEnclosingSlot | InstructionGeneration.ParamKeepsEnclosingSlot |
| hanno/type_inference/main.py:34 | `infer_types` builds `ConstraintGenerator()`, whose class leaves `visit_annotation`, `visit_impl`, `visit_match`, `visit_pattern` and `visit_trait` abstract, so the constructor raises TypeError | any program, such as `1` | a generator that can be built and types the tree, with a solution that solves the equations it produces | high, not executed | Visitors.ConstraintGeneratorAbstract | Inference.InferTypes |
| hanno/type_inference/main.py:36 | the generator expression calls `utils.unify(left, right)` with two arguments, but `unify(constraint)` takes one equation (hanno/type_inference/utils.py:25), so the first call raises TypeError | any program whose generator produces an equation, such as `a ~ a` | each equation passed as one argument, `unify(Equation(left, right))`, and the substitutions merged | high, not executed | Inference.UnifyCallAsWritten | Inference.Solve |
| hanno/type_inference/main.py:41 | `Substitutor(full_substitution)` leaves `visit_impl`, `visit_match` and `visit_trait` abstract, so the constructor raises TypeError | any program whose equations are solved | a substitutor that can be built and writes the solution back | high, not executed | Visitors.SubstitutorAbstract | Inference.SubstituteTree |
| hanno/visitors/exhaustiveness_checker.py:22 | `ExhaustivenessChecker()` leaves `visit_impl` and `visit_trait` abstract, so the constructor raises TypeError | any tree, such as `1` | a checker that can be built and reports refutable patterns | high, not executed | Visitors.ExhaustivenessCheckerAbstract | Exhaustiveness.Check |
| hanno/visitors/string_expander.py:48 | `StringExpander()` leaves `visit_impl` and `visit_trait` abstract, so the constructor raises TypeError | any tree, such as `"a"` | an expander that can be built and expands escapes | high, not executed | Visitors.StringExpanderAbstract | StringExpander.PlainNodeUnchanged |
| hanno/type_inference/utils.py:95-101 | `merge_substitutions` unifies the two values of a shared variable and lays that unifier over both sides without checking the bindings it overrides, so a binding can be lost | `a -> (a -> b) ~ b -> (Bool -> Int)` is accepted with `{a: Bool, b: Bool}`, though no substitution solves it | each equation unified under the substitution found so far, so that every result makes both sides equal | high, not executed | Unification.UnifyAcceptsClash | Unifier.UnifySound |
