/** Lowering a selector's regular expression to a bounded kernel-name filter for the agent, and the
    selector hints that lower back to the name they were printed for.  Patterns and names are
    sequences of Unicode scalar values.
 */
module NameFilter {
  import opened Common
  import opened Utf8
  import opened AgentNames

  const BACKSLASH: Scalar := 92
  const CARET: Scalar := 94
  const DOLLAR: Scalar := 36
  const DOT: Scalar := 46
  const STAR: Scalar := 42
  const NEWLINE: Scalar := 10

  /** `. + * ? ( ) | [ ] { } ^ $` */
  predicate IsMeta(c: Scalar) {
    c == 46 || c == 43 || c == 42 || c == 63 || c == 40 || c == 41 || c == 124
    || c == 91 || c == 93 || c == 123 || c == 125 || c == 94 || c == 36
  }

  const OPERATORS: string := ".+*?()|[]{}^$"

  lemma OperatorsMean(c: Scalar)
    ensures IsMeta(c) <==> exists i :: 0 <= i < |OPERATORS| && OPERATORS[i] as int == c
  {
    if IsMeta(c) {
      var i := if c == 46 then 0 else if c == 43 then 1 else if c == 42 then 2 else if c == 63 then 3
               else if c == 40 then 4 else if c == 41 then 5 else if c == 124 then 6 else if c == 91 then 7
               else if c == 93 then 8 else if c == 123 then 9 else if c == 125 then 10 else if c == 94 then 11 else 12;
      assert OPERATORS[i] as int == c;
    }
  }

  predicate IsAlphanumeric(c: Scalar) { 48 <= c <= 57 || 65 <= c <= 90 || 97 <= c <= 122 }

  function Prepend<T>(x: T, rest: Option<seq<T>>): (r: Option<seq<T>>) {
    if rest.None? then None else Some([x] + rest.value)
  }

  // The literal of a pattern, and the escaped form of a name

  /** The literal text of a pattern without operators. */
  function Literal(pattern: seq<Scalar>): (r: Option<seq<Scalar>>) {
    if pattern == [] then Some([])
    else if pattern[0] == BACKSLASH then
      if |pattern| == 1 || IsAlphanumeric(pattern[1]) then None else Prepend(pattern[1], Literal(pattern[2..]))
    else if IsMeta(pattern[0]) then None
    else Prepend(pattern[0], Literal(pattern[1..]))
  }

  function EscapeChar(c: Scalar): (r: seq<Scalar>) { if c == BACKSLASH || IsMeta(c) then [BACKSLASH, c] else [c] }

  function Escape(name: seq<Scalar>): (r: seq<Scalar>) {
    if name == [] then [] else EscapeChar(name[0]) + Escape(name[1..])
  }

  /** `literal` has been read, and `rest` is still to read. */
  ghost predicate Reading(pattern: seq<Scalar>, literal: seq<Scalar>, rest: seq<Scalar>) {
    && (Literal(pattern).None? <==> Literal(rest).None?)
    && (Literal(rest).Some? ==> Literal(pattern).value == literal + Literal(rest).value)
  }

  lemma ReadPlain(pattern: seq<Scalar>, literal: seq<Scalar>, rest: seq<Scalar>)
    requires rest != [] && rest[0] != BACKSLASH && Reading(pattern, literal, rest)
    ensures if IsMeta(rest[0]) then Literal(pattern).None? else Reading(pattern, literal + [rest[0]], rest[1..])
  {
    hide IsMeta, IsAlphanumeric;
  }

  lemma ReadEscaped(pattern: seq<Scalar>, literal: seq<Scalar>, rest: seq<Scalar>)
    requires rest != [] && rest[0] == BACKSLASH && Reading(pattern, literal, rest)
    ensures if |rest| == 1 || IsAlphanumeric(rest[1]) then Literal(pattern).None?
            else Reading(pattern, literal + [rest[1]], rest[2..])
  {
    hide IsMeta, IsAlphanumeric;
  }

  lemma ReadAll(pattern: seq<Scalar>, literal: seq<Scalar>)
    ensures Reading(pattern, [], pattern)
    ensures Reading(pattern, literal, []) ==> Literal(pattern) == Some(literal)
  {
    hide IsMeta, IsAlphanumeric;
    assert literal + [] == literal;
  }

  method RegexLiteral(pattern: seq<Scalar>) returns (r: Option<seq<Scalar>>)
    ensures r == Literal(pattern)
  {
    hide Literal, Reading, IsMeta, IsAlphanumeric;
    var literal: seq<Scalar> := [];
    var i := 0;
    ReadAll(pattern, literal);
    assert pattern[0..] == pattern;
    while i < |pattern|
      invariant i <= |pattern| && Reading(pattern, literal, pattern[i..])
    {
      var c := pattern[i];
      ghost var rest := pattern[i..];
      i := i + 1;
      assert rest[1..] == pattern[i..];
      if c == BACKSLASH {
        ReadEscaped(pattern, literal, rest);
        if i == |pattern| { return None; }
        var escaped := pattern[i];
        assert rest[2..] == pattern[i + 1..];
        i := i + 1;
        if IsAlphanumeric(escaped) { return None; }
        literal := literal + [escaped];
      } else {
        ReadPlain(pattern, literal, rest);
        if IsMeta(c) { return None; }
        literal := literal + [c];
      }
    }
    ReadAll(pattern, literal);
    assert pattern[i..] == [];
    return Some(literal);
  }

  lemma {:induction false} EscapeSnoc(name: seq<Scalar>, c: Scalar)
    ensures Escape(name + [c]) == Escape(name) + EscapeChar(c)
  {
    if name == [] {
      assert name + [c] == [c];
    } else {
      assert (name + [c])[1..] == name[1..] + [c];
      EscapeSnoc(name[1..], c);
    }
  }

  method EscapeSelectorRegex(name: seq<Scalar>) returns (escaped: seq<Scalar>)
    ensures escaped == Escape(name)
  {
    escaped := [];
    for i := 0 to |name|
      invariant escaped == Escape(name[..i])
    {
      assert name[..i + 1] == name[..i] + [name[i]];
      EscapeSnoc(name[..i], name[i]);
      if name[i] == BACKSLASH || IsMeta(name[i]) { escaped := escaped + [BACKSLASH]; }
      escaped := escaped + [name[i]];
    }
    assert name[..|name|] == name;
  }

  lemma EscapedFirst(c: Scalar, rest: seq<Scalar>)
    ensures Literal(EscapeChar(c) + rest) == Prepend(c, Literal(rest))
  {
    var pattern := EscapeChar(c) + rest;
    assert pattern[|EscapeChar(c)|..] == rest;
  }

  /** Reading an escaped name back, before anything else. */
  lemma {:induction false} EscapeThen(name: seq<Scalar>, rest: seq<Scalar>)
    ensures Literal(Escape(name) + rest).None? <==> Literal(rest).None?
    ensures Literal(rest).Some? ==> Literal(Escape(name) + rest).value == name + Literal(rest).value
  {
    hide Literal, EscapeChar;
    if name == [] {
      assert Escape(name) + rest == rest;
    } else {
      EscapeThen(name[1..], rest);
      assert Escape(name) + rest == EscapeChar(name[0]) + (Escape(name[1..]) + rest);
      EscapedFirst(name[0], Escape(name[1..]) + rest);
      assert name == [name[0]] + name[1..];
    }
  }

  // Lowering

  datatype Filter = Unfiltered | Named(kind: Kind, literal: seq<Scalar>)

  datatype Candidate = Candidate(prefix: seq<Scalar>, suffix: seq<Scalar>, kind: Kind)

  const RUN: seq<Scalar> := [DOT, STAR]

  const CANDIDATES: seq<Candidate> := [
    Candidate([CARET], [DOLLAR], Exact),
    Candidate([CARET], RUN, Prefix),
    Candidate(RUN, [DOLLAR], Suffix),
    Candidate(RUN, RUN, Contains),
    Candidate([CARET], [], Prefix),
    Candidate([], [DOLLAR], Suffix),
    Candidate(RUN, [], Contains),
    Candidate([], [], Contains)
  ]

  /** What is between the candidate's prefix and suffix. */
  function Inner(c: Candidate, pattern: seq<Scalar>): (r: Option<seq<Scalar>>) {
    if |c.prefix| + |c.suffix| <= |pattern| && c.prefix <= pattern
       && pattern[|pattern| - |c.suffix|..] == c.suffix
    then Some(pattern[|c.prefix|..|pattern| - |c.suffix|])
    else None
  }

  function Try(c: Candidate, pattern: seq<Scalar>): (r: Option<Filter>) {
    if Inner(c, pattern).None? || Literal(Inner(c, pattern).value).None? then None
    else
      var literal := Literal(Inner(c, pattern).value).value;
      if literal == [] || |Encode(literal)| >= NAME_LENGTH then None else Some(Named(c.kind, literal))
  }

  function FirstMatch(candidates: seq<Candidate>, pattern: seq<Scalar>): (r: Filter) {
    if candidates == [] then Unfiltered
    else if Try(candidates[0], pattern).Some? then Try(candidates[0], pattern).value
    else FirstMatch(candidates[1..], pattern)
  }

  function Lower(pattern: seq<Scalar>): (r: Filter) {
    if pattern == RUN then Unfiltered else FirstMatch(CANDIDATES, pattern)
  }

  lemma {:induction false} LowerTried(candidates: seq<Candidate>, pattern: seq<Scalar>) returns (c: Candidate)
    requires FirstMatch(candidates, pattern).Named?
    ensures c in candidates && Try(c, pattern) == Some(FirstMatch(candidates, pattern))
  {
    if Try(candidates[0], pattern).Some? {
      c := candidates[0];
    } else {
      c := LowerTried(candidates[1..], pattern);
    }
  }

  lemma {:induction false} MatchFound(candidates: seq<Candidate>, pattern: seq<Scalar>, c: Candidate)
    requires c in candidates && Try(c, pattern).Some?
    ensures FirstMatch(candidates, pattern).Named?
  {
    if Try(candidates[0], pattern).None? { MatchFound(candidates[1..], pattern, c); }
  }

  /** The pattern is the text between two of `^`, `.*` and nothing, and `$`, `.*` and nothing; a trailing `.*`
      needs something in front. */
  ghost predicate Frames(pattern: seq<Scalar>, inner: seq<Scalar>) {
    var before, after := [CARET], [DOLLAR];
    || pattern == inner || pattern == before + inner || pattern == inner + after || pattern == before + inner + after
    || pattern == [DOT, STAR] + inner || pattern == [DOT, STAR] + inner + after
    || pattern == before + inner + [DOT, STAR] || pattern == [DOT, STAR] + inner + [DOT, STAR]
  }

  /** The text is literal, not empty, and fits the filter. */
  ghost predicate Literally(inner: seq<Scalar>) {
    Literal(inner).Some? && Literal(inner).value != [] && |Encode(Literal(inner).value)| < NAME_LENGTH
  }

  lemma FramedTried(c: Candidate, pattern: seq<Scalar>, inner: seq<Scalar>)
    requires pattern == c.prefix + inner + c.suffix
    ensures Try(c, pattern).Some? <==> Literally(inner)
  {
    hide Encode, Literal;
    assert pattern[|pattern| - |c.suffix|..] == c.suffix;
    assert pattern[|c.prefix|..|pattern| - |c.suffix|] == inner;
  }

  lemma TriedFrames(c: Candidate, pattern: seq<Scalar>)
    requires c in CANDIDATES && Try(c, pattern).Some?
    ensures exists inner :: Frames(pattern, inner) && Literally(inner)
  {
    hide Encode, Literal;
    var inner := Inner(c, pattern).value;
    assert pattern == c.prefix + inner + c.suffix;
    assert [] + inner == inner && inner + [] == inner;
    assert Frames(pattern, inner) by { hide Try; }
  }

  lemma FramesCandidate(pattern: seq<Scalar>, inner: seq<Scalar>) returns (c: Candidate)
    requires Frames(pattern, inner)
    ensures c in CANDIDATES && pattern == c.prefix + inner + c.suffix
  {
    assert [] + inner == inner && inner + [] == inner;
    var before, after := [CARET], [DOLLAR];
    if pattern == inner { c := CANDIDATES[7]; }
    else if pattern == before + inner { c := CANDIDATES[4]; }
    else if pattern == inner + after { c := CANDIDATES[5]; }
    else if pattern == before + inner + after { c := CANDIDATES[0]; }
    else if pattern == [DOT, STAR] + inner { c := CANDIDATES[6]; }
    else if pattern == [DOT, STAR] + inner + after { c := CANDIDATES[2]; }
    else if pattern == before + inner + [DOT, STAR] { c := CANDIDATES[1]; }
    else { c := CANDIDATES[3]; }
  }

  /** `.*` alone frames no literal. */
  lemma RunFramesNothing(inner: seq<Scalar>)
    requires Frames(RUN, inner)
    ensures !Literally(inner)
  {
    hide Encode;
    var c := FramesCandidate(RUN, inner);
    assert |RUN| == 2 && |c.prefix| + |inner| + |c.suffix| == 2;
    if inner != [] {
      assert |inner| <= 2;
      assert inner[0] == RUN[|c.prefix|];
    }
  }

  /** Lowering yields a named filter if and only if the pattern frames a literal that is not empty and fits. */
  lemma LowerNamedIff(pattern: seq<Scalar>)
    ensures Lower(pattern).Named? <==> exists inner :: Frames(pattern, inner) && Literally(inner)
  {
    hide Frames, Literally, Try;
    if Lower(pattern).Named? {
      var c := LowerTried(CANDIDATES, pattern);
      TriedFrames(c, pattern);
    }
    if inner :| Frames(pattern, inner) && Literally(inner) {
      if pattern == RUN { RunFramesNothing(inner); }
      var c := FramesCandidate(pattern, inner);
      FramedTried(c, pattern, inner);
      MatchFound(CANDIDATES, pattern, c);
    }
  }

  // The meaning of a pattern

  datatype Token = Lit(c: Scalar) | AnyRun | AtStart | AtEnd

  /** The characters that a backslash makes literal: ASCII, not alphanumeric, and not `<` or `>`,
      which a backslash turns into word boundaries. */
  predicate Escapable(c: Scalar) { c < 128 && !IsAlphanumeric(c) && c != 60 && c != 62 }

  /** The tokens of a pattern made of anchors, `.*`, literal characters and escapes. */
  function Tokenize(pattern: seq<Scalar>): (r: Option<seq<Token>>) {
    if pattern == [] then Some([])
    else if pattern[0] == BACKSLASH then
      if |pattern| >= 2 && Escapable(pattern[1]) then Prepend(Lit(pattern[1]), Tokenize(pattern[2..])) else None
    else if pattern[0] == CARET then Prepend(AtStart, Tokenize(pattern[1..]))
    else if pattern[0] == DOLLAR then Prepend(AtEnd, Tokenize(pattern[1..]))
    else if pattern[0] == DOT && |pattern| >= 2 && pattern[1] == STAR then Prepend(AnyRun, Tokenize(pattern[2..]))
    else if IsMeta(pattern[0]) then None
    else Prepend(Lit(pattern[0]), Tokenize(pattern[1..]))
  }

  /** The tokens match the name from position `i`. */
  ghost predicate MatchesAt(tokens: seq<Token>, name: seq<Scalar>, i: nat)
    requires i <= |name|
    decreases |tokens|
  {
    if tokens == [] then true
    else
      match tokens[0]
      case Lit(c) => i < |name| && name[i] == c && MatchesAt(tokens[1..], name, i + 1)
      case AtStart => i == 0 && MatchesAt(tokens[1..], name, i)
      case AtEnd => i == |name| && MatchesAt(tokens[1..], name, i)
      case AnyRun => exists k :: i <= k <= |name| && NEWLINE !in name[i..k] && MatchesAt(tokens[1..], name, k)
  }

  /** A pattern matches a name if it matches from some position. */
  ghost predicate Searches(tokens: seq<Token>, name: seq<Scalar>) {
    exists i :: 0 <= i <= |name| && MatchesAt(tokens, name, i)
  }

  function Lits(literal: seq<Scalar>): (r: seq<Token>) { seq(|literal|, i requires 0 <= i < |literal| => Lit(literal[i])) }

  lemma {:induction false} MatchesLits(literal: seq<Scalar>, rest: seq<Token>, name: seq<Scalar>, i: nat)
    requires i <= |name|
    ensures MatchesAt(Lits(literal) + rest, name, i)
            <==> OccursAt(literal, name, i) && MatchesAt(rest, name, i + |literal|)
    decreases |literal|
  {
    if literal == [] {
      assert Lits(literal) + rest == rest;
    } else {
      var tokens := Lits(literal) + rest;
      assert tokens[0] == Lit(literal[0]) && tokens[1..] == Lits(literal[1..]) + rest;
      if i < |name| && name[i] == literal[0] {
        MatchesLits(literal[1..], rest, name, i + 1);
        if i + |literal| <= |name| {
          assert name[i..i + |literal|] == [name[i]] + name[i + 1..i + |literal|];
          assert literal == [literal[0]] + literal[1..];
        }
      } else if i < |name| && i + |literal| <= |name| {
        assert name[i..i + |literal|][0] == name[i];
      }
    }
  }

  /** The tokens in front of and behind the literal. */
  function Before(prefix: seq<Scalar>): (r: seq<Token>) {
    if prefix == [CARET] then [AtStart] else if prefix == RUN then [AnyRun] else []
  }

  function After(suffix: seq<Scalar>): (r: seq<Token>) {
    if suffix == [DOLLAR] then [AtEnd] else if suffix == RUN then [AnyRun] else []
  }

  /** The literal stands at position `i`, which the anchors allow. */
  ghost predicate Stands(c: Candidate, literal: seq<Scalar>, name: seq<Scalar>, i: nat) {
    && OccursAt(literal, name, i)
    && (c.prefix == [CARET] ==> i == 0)
    && (c.suffix == [DOLLAR] ==> i + |literal| == |name|)
  }

  lemma AfterMatches(suffix: seq<Scalar>, name: seq<Scalar>, i: nat)
    requires i <= |name|
    ensures MatchesAt(After(suffix), name, i) <==> (suffix == [DOLLAR] ==> i == |name|)
  {
    if After(suffix) == [AnyRun] {
      assert name[i..i] == [] && MatchesAt([], name, i);
      assert After(suffix)[1..] == [];
    }
  }

  /** The literal stands at position `i`, which the end anchor allows. */
  lemma RestMatches(c: Candidate, literal: seq<Scalar>, name: seq<Scalar>, i: nat)
    requires i <= |name|
    ensures MatchesAt(Lits(literal) + After(c.suffix), name, i) <==>
              OccursAt(literal, name, i) && (c.suffix == [DOLLAR] ==> i + |literal| == |name|)
  {
    hide MatchesAt, After;
    MatchesLits(literal, After(c.suffix), name, i);
    if i + |literal| <= |name| { AfterMatches(c.suffix, name, i + |literal|); }
  }

  lemma BeforeMatches(prefix: seq<Scalar>, rest: seq<Token>, name: seq<Scalar>, i: nat)
    requires i <= |name|
    ensures prefix != RUN ==>
              (MatchesAt(Before(prefix) + rest, name, i) <==> MatchesAt(rest, name, i) && (prefix == [CARET] ==> i == 0))
    ensures prefix == RUN ==>
              (MatchesAt(Before(prefix) + rest, name, i) <==>
                 exists k :: i <= k <= |name| && NEWLINE !in name[i..k] && MatchesAt(rest, name, k))
  {
    var tokens := Before(prefix) + rest;
    if Before(prefix) == [] {
      assert tokens == rest;
    } else {
      assert tokens[0] == Before(prefix)[0] && tokens[1..] == rest;
    }
  }

  /** Searching for an anchored literal finds it exactly where the anchors allow it. */
  lemma SearchesStands(c: Candidate, literal: seq<Scalar>, name: seq<Scalar>)
    ensures Searches(Before(c.prefix) + (Lits(literal) + After(c.suffix)), name)
            <==> exists i: nat :: Stands(c, literal, name, i)
  {
    hide MatchesAt, After, Before, Lits;
    var rest := Lits(literal) + After(c.suffix);
    var tokens := Before(c.prefix) + rest;
    if Searches(tokens, name) {
      var i :| 0 <= i <= |name| && MatchesAt(tokens, name, i);
      BeforeMatches(c.prefix, rest, name, i);
      var k :| i <= k <= |name| && MatchesAt(rest, name, k) && (c.prefix == [CARET] ==> k == 0);
      RestMatches(c, literal, name, k);
      assert Stands(c, literal, name, k);
    }
    if i: nat :| Stands(c, literal, name, i) {
      RestMatches(c, literal, name, i);
      assert name[i..i] == [];
      BeforeMatches(c.prefix, rest, name, i);
      assert MatchesAt(tokens, name, i);
    }
  }

  /** What a filter means on names. */
  ghost predicate Denotes(kind: Kind, literal: seq<Scalar>, name: seq<Scalar>) {
    match kind
    case Any => true
    case Exact => name == literal
    case Prefix => literal <= name
    case Suffix => |literal| <= |name| && name[|name| - |literal|..] == literal
    case Contains => Occurs(literal, name)
  }

  lemma CandidateDenotes(c: Candidate, literal: seq<Scalar>, name: seq<Scalar>)
    requires c in CANDIDATES
    ensures (exists i: nat :: Stands(c, literal, name, i)) <==> Denotes(c.kind, literal, name)
  {
    if Denotes(c.kind, literal, name) {
      if c.kind == Exact || c.kind == Prefix {
        assert name[0..0 + |literal|] == literal;
        assert Stands(c, literal, name, 0);
      } else if c.kind == Suffix {
        assert Stands(c, literal, name, |name| - |literal|);
      } else {
        var i: nat :| OccursAt(literal, name, i);
        assert Stands(c, literal, name, i);
      }
    }
  }

  /** A literal stretch of a pattern tokenizes to its literal characters. */
  lemma {:induction false} LiteralTokens(inner: seq<Scalar>, suffix: seq<Scalar>)
    requires Literal(inner).Some? && Tokenize(inner + suffix).Some?
    ensures Tokenize(suffix).Some?
    ensures Tokenize(inner + suffix).value == Lits(Literal(inner).value) + Tokenize(suffix).value
    decreases |inner|
  {
    if inner == [] {
      assert inner + suffix == suffix;
      assert Lits([]) == [];
    } else {
      var n := if inner[0] == BACKSLASH then 2 else 1;
      assert (inner + suffix)[n..] == inner[n..] + suffix;
      LiteralTokens(inner[n..], suffix);
      var rest := Literal(inner[n..]).value;
      assert Lits([Literal(inner).value[0]] + rest) == [Lit(Literal(inner).value[0])] + Lits(rest);
    }
  }

  lemma TokensAround(c: Candidate, pattern: seq<Scalar>)
    requires c in CANDIDATES && Inner(c, pattern).Some? && Literal(Inner(c, pattern).value).Some?
    requires Tokenize(pattern).Some?
    ensures Tokenize(pattern).value
            == Before(c.prefix) + (Lits(Literal(Inner(c, pattern).value).value) + After(c.suffix))
  {
    hide *;
    CandidateParts(c, pattern);
    var inner := Inner(c, pattern).value;
    PrefixTokens(c.prefix, inner + c.suffix);
    LiteralTokens(inner, c.suffix);
    SuffixTokens(c.suffix);
  }

  lemma CandidateParts(c: Candidate, pattern: seq<Scalar>)
    requires c in CANDIDATES && Inner(c, pattern).Some?
    ensures c.prefix == [] || c.prefix == [CARET] || c.prefix == RUN
    ensures c.suffix == [] || c.suffix == [DOLLAR] || c.suffix == RUN
    ensures pattern == c.prefix + (Inner(c, pattern).value + c.suffix)
  {
  }

  lemma PrefixTokens(prefix: seq<Scalar>, rest: seq<Scalar>)
    requires prefix == [] || prefix == [CARET] || prefix == RUN
    requires Tokenize(prefix + rest).Some?
    ensures Tokenize(rest).Some? && Tokenize(prefix + rest).value == Before(prefix) + Tokenize(rest).value
  {
    assert (prefix + rest)[|prefix|..] == rest;
  }

  lemma SuffixTokens(suffix: seq<Scalar>)
    requires suffix == [] || suffix == [DOLLAR] || suffix == RUN
    ensures Tokenize(suffix) == Some(After(suffix))
  {
    assert [DOLLAR][1..] == [] && RUN[2..] == [];
    assert [AtEnd] + [] == [AtEnd] && [AnyRun] + [] == [AnyRun];
    assert Tokenize([]) == Some([]);
  }

  /** A named filter means what its pattern means. */
  lemma LowerMeaning(pattern: seq<Scalar>, name: seq<Scalar>)
    requires Tokenize(pattern).Some? && Lower(pattern).Named?
    ensures Denotes(Lower(pattern).kind, Lower(pattern).literal, name) <==> Searches(Tokenize(pattern).value, name)
  {
    hide MatchesAt, Tokenize, Denotes, Literal;
    var c := LowerTried(CANDIDATES, pattern);
    TokensAround(c, pattern);
    SearchesStands(c, Lower(pattern).literal, name);
    CandidateDenotes(c, Lower(pattern).literal, name);
  }

  // The agent agrees

  lemma {:induction false} EncodeNulFree(s: seq<Scalar>)
    ensures 0 in Encode(s) <==> 0 in s
  {
    if s != [] {
      EncodeNulFree(s[1..]);
      CharShape(s[0]);
      assert s == [s[0]] + s[1..];
      assert 0 in EncodeChar(s[0]) <==> s[0] == 0;
    }
  }

  /** Occurrences of bytes are occurrences of characters. */
  lemma OccursBytes(literal: seq<Scalar>, name: seq<Scalar>)
    requires literal != []
    ensures Occurs(Encode(literal), Encode(name)) <==> Occurs(literal, name)
  {
    hide Encode;
    if i: nat :| OccursAt(Encode(literal), Encode(name), i) {
      var k := EncodeOccurs(name, literal, i);
      assert OccursAt(literal, name, k);
    }
    if k: nat :| OccursAt(literal, name, k) {
      EncodeAt(name, k, literal);
      assert OccursAt(Encode(literal), Encode(name), |Encode(name[..k])|);
    }
  }

  predicate EndsIn<T(==)>(part: seq<T>, whole: seq<T>) { |part| <= |whole| && whole[|whole| - |part|..] == part }

  lemma SuffixDecodes(literal: seq<Scalar>, name: seq<Scalar>)
    requires literal != [] && EndsIn(Encode(literal), Encode(name))
    ensures EndsIn(literal, name)
  {
    hide Encode;
    var k := EncodeOccurs(name, literal, |Encode(name)| - |Encode(literal)|);
    var rest := name[k + |literal|..];
    assert name == name[..k] + literal + rest;
    EncodeConcat(name[..k] + literal, rest);
    EncodeConcat(name[..k], literal);
    assert |Encode(rest)| == 0;
    EncodedEmpty(rest);
  }

  lemma SuffixEncodes(literal: seq<Scalar>, name: seq<Scalar>)
    requires EndsIn(literal, name)
    ensures EndsIn(Encode(literal), Encode(name))
  {
    hide Encode;
    assert name == name[..|name| - |literal|] + literal;
    EncodeConcat(name[..|name| - |literal|], literal);
  }

  lemma EncodedEmpty(s: seq<Scalar>)
    ensures |Encode(s)| == 0 <==> s == []
  {
  }

  /** The matcher accepts the encoded name if and only if the filter means the name; a name too long for its
      end to be seen is the exception for suffixes, and its unseen part for containment. */
  lemma AgentAgrees(kind: Kind, literal: seq<Scalar>, name: seq<Scalar>)
    requires literal != [] && |Encode(literal)| < NAME_LENGTH
    requires kind == Any || kind == Exact || kind == Prefix || |Encode(name)| < NAME_LENGTH
    ensures Accepts(kind, Encode(literal), Encode(name)) <==> Denotes(kind, literal, name)
  {
    hide Encode;
    match kind
    case Any =>
    case Exact => EncodeInjective(literal, name);
    case Prefix => EncodePrefix(name, literal);
    case Suffix =>
      if EndsIn(Encode(literal), Encode(name)) { SuffixDecodes(literal, name); }
      if EndsIn(literal, name) { SuffixEncodes(literal, name); }
    case Contains =>
      assert Encode(name)[..Min(|Encode(name)|, NAME_LENGTH)] == Encode(name);
      OccursBytes(literal, name);
  }

  // Names whose end the matcher cannot see

  /** The literal stands somewhere within the first `n` bytes of the name. */
  ghost predicate OccursBy(literal: seq<Scalar>, name: seq<Scalar>, n: nat) {
    exists k: nat :: OccursAt(literal, name, k) && |Encode(name[..k])| + |Encode(literal)| <= n
  }

  lemma WithinPrefix<T>(s: seq<T>, n: nat, i: nat, j: nat)
    requires i <= j <= n <= |s|
    ensures s[..n][i..j] == s[i..j]
  {
  }

  /** An occurrence within the visible bytes is an occurrence that ends there. */
  lemma VisibleOccurs(literal: seq<Scalar>, name: seq<Scalar>, n: nat)
    requires literal != []
    ensures Occurs(Encode(literal), Encode(name)[..Min(|Encode(name)|, n)]) <==> OccursBy(literal, name, n)
  {
    hide Encode;
    var f, s := Encode(literal), Encode(name);
    var seen := s[..Min(|s|, n)];
    if i: nat :| OccursAt(f, seen, i) {
      WithinPrefix(s, |seen|, i, i + |f|);
      var k := EncodeOccurs(name, literal, i);
      assert OccursAt(literal, name, k);
    }
    if k: nat :| OccursAt(literal, name, k) && |Encode(name[..k])| + |f| <= n {
      EncodeAt(name, k, literal);
      var i := |Encode(name[..k])|;
      WithinPrefix(s, |seen|, i, i + |f|);
      assert OccursAt(f, seen, i);
    }
  }

  /** For names of every length: where matcher and meaning agree. */
  ghost predicate Visible(kind: Kind, literal: seq<Scalar>, name: seq<Scalar>) {
    match kind
    case Any => true
    case Exact => true
    case Prefix => true
    case Suffix => |Encode(name)| < NAME_LENGTH || !EndsIn(literal, name)
    case Contains => !Occurs(literal, name) || OccursBy(literal, name, NAME_LENGTH)
  }

  /** The matcher agrees with the filter's meaning if and only if, for a suffix, the name is short or does not
      end in the literal, and for containment, the literal is absent or ends within the first bytes. */
  lemma AgentAgreesIff(kind: Kind, literal: seq<Scalar>, name: seq<Scalar>)
    requires literal != [] && |Encode(literal)| < NAME_LENGTH
    ensures (Accepts(kind, Encode(literal), Encode(name)) <==> Denotes(kind, literal, name))
            <==> Visible(kind, literal, name)
  {
    hide Encode;
    if kind == Contains {
      VisibleOccurs(literal, name, NAME_LENGTH);
    } else if kind != Suffix || |Encode(name)| < NAME_LENGTH {
      AgentAgrees(kind, literal, name);
    }
  }

  lemma {:induction false} AsciiLength(s: seq<Scalar>)
    requires forall i :: 0 <= i < |s| ==> s[i] < 128
    ensures |Encode(s)| == |s|
  {
    if s != [] { AsciiLength(s[1..]); }
  }

  /** A name of `n` letters `a` and a final `b`. */
  function Long(n: nat): (name: seq<Scalar>) { seq(n, _ => 97 as Scalar) + [98] }

  lemma LongBytes(n: nat)
    ensures |Encode(Long(n))| == n + 1 && |Encode(Long(n)[..n])| == n && |Encode([98])| == 1
  {
    AsciiLength(Long(n));
    AsciiLength(Long(n)[..n]);
    AsciiLength([98]);
  }

  lemma LongEnds(n: nat)
    ensures EndsIn([98], Long(n)) && OccursAt([98], Long(n), n)
    ensures forall k: nat :: OccursAt([98], Long(n), k) ==> k == n
  {
    forall k: nat | OccursAt([98], Long(n), k) ensures k == n {
      assert Long(n)[k..k + 1][0] == 98;
    }
  }

  /** A name of 128 letters that ends in the literal, and one of 129 that contains it: both are refused. */
  lemma LongNamesRefused()
    ensures Denotes(Suffix, [98], Long(127)) && !Accepts(Suffix, Encode([98]), Encode(Long(127)))
    ensures Denotes(Contains, [98], Long(128)) && !Accepts(Contains, Encode([98]), Encode(Long(128)))
  {
    hide Encode, Long;
    LongBytes(127);
    LongEnds(127);
    LongBytes(128);
    LongEnds(128);
    AgentAgreesIff(Suffix, [98], Long(127));
    AgentAgreesIff(Contains, [98], Long(128));
  }

  /** A filter's name as the agent holds it: padded with NULs to the buffer's length. */
  function Padded(literal: seq<Scalar>): (memory: seq<Byte>)
    requires |Encode(literal)| < NAME_LENGTH
    ensures |memory| == NAME_LENGTH
  {
    Encode(literal) + seq(NAME_LENGTH - |Encode(literal)|, _ => 0 as Byte)
  }

  lemma PaddedText(literal: seq<Scalar>)
    requires |Encode(literal)| < NAME_LENGTH && 0 !in literal
    ensures Text(Padded(literal)) == Encode(literal)
  {
    EncodeNulFree(literal);
    var rest := seq(NAME_LENGTH - |Encode(literal)| - 1, _ => 0 as Byte);
    assert Padded(literal) == Encode(literal) + [0] + rest;
    TextOfString(Encode(literal), rest);
  }

  /** Lowering preserves meaning: the agent's matcher accepts a name under a lowered filter if and only if
      the pattern matches the name. */
  lemma LoweredFilterAgrees(pattern: seq<Scalar>, name: seq<Scalar>)
    requires Tokenize(pattern).Some? && Lower(pattern).Named? && 0 !in Lower(pattern).literal
    requires 0 !in name && |Encode(name)| < NAME_LENGTH
    ensures |Encode(Lower(pattern).literal)| < NAME_LENGTH
    ensures Accepts(Lower(pattern).kind, Text(Padded(Lower(pattern).literal)), Text(Encode(name) + [0]))
            <==> Searches(Tokenize(pattern).value, name)
  {
    hide Encode, Tokenize, Searches, Denotes, Accepts, Text, Literal;
    var c := LowerTried(CANDIDATES, pattern);
    var literal := Lower(pattern).literal;
    EncodeNulFree(name);
    TextOfString(Encode(name), []);
    assert Encode(name) + [0] + [] == Encode(name) + [0];
    PaddedText(literal);
    AgentAgrees(Lower(pattern).kind, literal, name);
    LowerMeaning(pattern, name);
  }

  /** For exact and prefix filters the length of the name does not matter. */
  lemma LoweredLongNames(pattern: seq<Scalar>, name: seq<Scalar>)
    requires Tokenize(pattern).Some? && Lower(pattern).Named?
    requires Lower(pattern).kind == Exact || Lower(pattern).kind == Prefix
    ensures Accepts(Lower(pattern).kind, Encode(Lower(pattern).literal), Encode(name))
            <==> Searches(Tokenize(pattern).value, name)
  {
    hide Encode, Tokenize, Searches, Denotes, Accepts, Literal;
    var c := LowerTried(CANDIDATES, pattern);
    AgentAgrees(Lower(pattern).kind, Lower(pattern).literal, name);
    LowerMeaning(pattern, name);
  }

  /** For every name: the agent's answer under a lowered filter is the pattern's if and only if the name's
      relevant part is visible to the matcher. */
  lemma LoweredIff(pattern: seq<Scalar>, name: seq<Scalar>)
    requires Tokenize(pattern).Some? && Lower(pattern).Named?
    ensures (Accepts(Lower(pattern).kind, Encode(Lower(pattern).literal), Encode(name))
             <==> Searches(Tokenize(pattern).value, name))
            <==> Visible(Lower(pattern).kind, Lower(pattern).literal, name)
  {
    hide Encode, Tokenize, Searches, Denotes, Accepts, Literal, Visible;
    var c := LowerTried(CANDIDATES, pattern);
    AgentAgreesIff(Lower(pattern).kind, Lower(pattern).literal, name);
    LowerMeaning(pattern, name);
  }

  // The selector hints

  /** The pattern of the hint printed for a kernel name. */
  function Hint(name: seq<Scalar>, complete: bool): (pattern: seq<Scalar>) {
    [CARET] + Escape(name) + if complete then [DOLLAR] else []
  }

  lemma {:induction false} EscapeEnds(name: seq<Scalar>)
    requires name != []
    ensures Escape(name) != [] && Escape(name)[|Escape(name)| - 1] == name[|name| - 1]
    ensures Escape(name) == Escape(name[..|name| - 1]) + EscapeChar(name[|name| - 1])
  {
    assert name == name[..|name| - 1] + [name[|name| - 1]];
    EscapeSnoc(name[..|name| - 1], name[|name| - 1]);
  }

  lemma LoneBackslash(name: seq<Scalar>)
    ensures Literal(Escape(name) + [BACKSLASH]).None?
  {
    EscapeThen(name, [BACKSLASH]);
  }

  lemma EscapeReads(name: seq<Scalar>)
    ensures Literal(Escape(name)) == Some(name)
  {
    EscapeThen(name, []);
    assert Escape(name) + [] == Escape(name) && name + [] == name;
  }

  /** The hint of a name that was stored completely lowers to that name exactly. */
  lemma CompleteHint(name: seq<Scalar>)
    requires name != [] && |Encode(name)| < NAME_LENGTH
    ensures Lower(Hint(name, true)) == Named(Exact, name)
  {
    hide Encode, Literal, Escape;
    var pattern := Hint(name, true);
    assert pattern[1..|pattern| - 1] == Escape(name);
    EscapeReads(name);
    assert Try(CANDIDATES[0], pattern) == Some(Named(Exact, name));
  }

  /** After a caret no candidate that starts with `.*` applies. */
  lemma RunRejected(c: Candidate, pattern: seq<Scalar>)
    requires c.prefix == RUN && pattern != [] && pattern[0] == CARET
    ensures Try(c, pattern).None?
  {
  }

  /** The dollar of an escaped dollar is no anchor: what is before it ends in a lone backslash. */
  lemma DollarRejected(name: seq<Scalar>)
    requires name != []
    ensures Try(Candidate([CARET], [DOLLAR], Exact), Hint(name, false)).None?
  {
    hide Encode, Literal, Escape;
    var pattern := Hint(name, false);
    EscapeEnds(name);
    if name[|name| - 1] == DOLLAR {
      LoneBackslash(name[..|name| - 1]);
      assert pattern[1..|pattern| - 1] == Escape(name[..|name| - 1]) + [BACKSLASH];
    } else {
      assert pattern[|pattern| - 1..][0] != DOLLAR;
    }
  }

  /** An escaped star is behind a backslash, not behind a dot. */
  lemma StarRejected(name: seq<Scalar>)
    requires name != []
    ensures Try(Candidate([CARET], RUN, Prefix), Hint(name, false)).None?
  {
    hide Encode, Literal, Escape;
    var pattern := Hint(name, false);
    EscapeEnds(name);
    if |pattern| >= 3 {
      var tail := pattern[|pattern| - 2..];
      assert tail[1] == name[|name| - 1];
      assert name[|name| - 1] == STAR ==> tail[0] == BACKSLASH;
    }
  }

  /** The hint of a name that was cut lowers to that name as a prefix. */
  lemma CutHint(name: seq<Scalar>)
    requires name != [] && |Encode(name)| < NAME_LENGTH
    ensures Lower(Hint(name, false)) == Named(Prefix, name)
  {
    hide Encode, Literal, Escape;
    var pattern := Hint(name, false);
    DollarRejected(name);
    StarRejected(name);
    RunRejected(CANDIDATES[2], pattern);
    RunRejected(CANDIDATES[3], pattern);
    EscapeReads(name);
    assert pattern[1..|pattern|] == Escape(name);
    assert Try(CANDIDATES[4], pattern) == Some(Named(Prefix, name));
    FifthMatches(pattern);
  }

  lemma FifthMatches(pattern: seq<Scalar>)
    requires forall i :: 0 <= i < 4 ==> Try(CANDIDATES[i], pattern).None?
    requires Try(CANDIDATES[4], pattern).Some?
    ensures FirstMatch(CANDIDATES, pattern) == Try(CANDIDATES[4], pattern).value
  {
    hide Try;
    FirstMatchSkips(pattern, 0);
    FirstMatchSkips(pattern, 1);
    FirstMatchSkips(pattern, 2);
    FirstMatchSkips(pattern, 3);
    assert CANDIDATES[0..] == CANDIDATES;
  }

  lemma FirstMatchSkips(pattern: seq<Scalar>, i: nat)
    requires i < |CANDIDATES| && Try(CANDIDATES[i], pattern).None?
    ensures FirstMatch(CANDIDATES[i..], pattern) == FirstMatch(CANDIDATES[i + 1..], pattern)
  {
    assert CANDIDATES[i..][1..] == CANDIDATES[i + 1..];
  }
}
