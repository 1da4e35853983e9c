/**
 The two scanners that look for "${...}" in property strings: the raw scan of
 the dependency resolver and the comment-aware scan of the interpolation parser.
 Strings are sequences of characters, as the source works on runes.
 */
module Interpolation {
  import opened Wrappers

  type Key = string

  /** One "${...}": `open` is the index of '$', `close` the index of the matching '}'. */
  datatype Span = Span(open: nat, close: nat)

  /** The interpolations a scan has met, the latest outermost. */
  datatype Trail = Start | Then(before: Trail, last: Span)
  {
    /** The first position after the latest interpolation. */
    function End(): nat {
      if Start? then 0 else last.close + 1
    }
  }

  predicate Opener(s: string, p: nat) {
    p + 1 < |s| && s[p] == '$' && s[p + 1] == '{'
  }

  ghost predicate NoOpener(s: string, from: nat, end: nat) {
    forall p :: from <= p < end ==> !Opener(s, p)
  }

  /** Opening braces minus closing braces in s[from..end]. */
  ghost function Depth(s: string, from: nat, end: nat): int
    requires from <= end <= |s|
    decreases end
  {
    if from == end then 0
    else Depth(s, from, end - 1) +
         (if s[end - 1] == '{' then 1 else if s[end - 1] == '}' then -1 else 0)
  }

  /** s[body..close] is brace-balanced and `close` is the brace that ends it. */
  ghost predicate Closes(s: string, body: nat, close: nat) {
    && body <= close < |s|
    && s[close] == '}'
    && Depth(s, body, close) == 0
    && forall j :: body <= j <= close ==> Depth(s, body, j) >= 0
  }

  ghost predicate Unclosed(s: string, body: nat) {
    body <= |s| && forall j :: body <= j <= |s| ==> Depth(s, body, j) >= 0
  }

  /** sp is a balanced interpolation of s. */
  ghost predicate IsSpan(s: string, sp: Span) {
    sp.open + 2 <= sp.close < |s| && Opener(s, sp.open) && Closes(s, sp.open + 2, sp.close)
  }

  /** Disjoint, in-order, brace-balanced interpolations, not necessarily all of them. */
  ghost predicate Sound(s: string, t: Trail) {
    t.Then? ==> Sound(s, t.before) && t.before.End() <= t.last.open && IsSpan(s, t.last)
  }

  /** The leading outermost interpolations of s: sound, and nothing opens between them. */
  ghost predicate Leading(s: string, t: Trail)
    ensures Leading(s, t) ==> Sound(s, t)
  {
    t.Then? ==>
      && Leading(s, t.before) && t.before.End() <= t.last.open
      && IsSpan(s, t.last) && NoOpener(s, t.before.End(), t.last.open)
  }

  /**
   The complete reading of a string from left to right: `t` are its outermost
   interpolations; `tail` is the opener, if any, that is never closed.
   */
  ghost predicate Reading(s: string, t: Trail, tail: Option<nat>) {
    && Leading(s, t)
    && match tail
       case None => NoOpener(s, t.End(), |s|)
       case Some(p) =>
         t.End() <= p && Opener(s, p) && NoOpener(s, t.End(), p) && Unclosed(s, p + 2)
  }

  /** The texts between the braces, in order. */
  ghost function Bodies(s: string, t: Trail): seq<string>
    requires Sound(s, t)
  {
    if t.Start? then [] else Bodies(s, t.before) + [s[t.last.open + 2..t.last.close]]
  }

  // ---------------------------------------------------------------- uniqueness

  lemma ClosesAt(s: string, body: nat, a: nat, b: nat)
    requires Closes(s, body, a) && Closes(s, body, b)
    ensures a == b
  {
    assert Depth(s, body, a + 1) == -1 && Depth(s, body, b + 1) == -1;
  }

  lemma ClosesOrNot(s: string, body: nat, a: nat)
    requires Closes(s, body, a)
    ensures !Unclosed(s, body)
  {
    assert Depth(s, body, a + 1) == -1;
  }

  lemma FirstOpener(s: string, from: nat, a: nat, b: nat)
    requires from <= a && Opener(s, a) && NoOpener(s, from, a)
    requires from <= b && Opener(s, b) && NoOpener(s, from, b)
    ensures a == b
  {
    assert a < b ==> !Opener(s, a);
    assert b < a ==> !Opener(s, b);
  }

  lemma NextSpanUnique(s: string, from: nat, a: Span, b: Span)
    requires from <= a.open && IsSpan(s, a) && NoOpener(s, from, a.open)
    requires from <= b.open && IsSpan(s, b) && NoOpener(s, from, b.open)
    ensures a == b
  {
    FirstOpener(s, from, a.open, b.open);
    ClosesAt(s, a.open + 2, a.close, b.close);
  }

  ghost predicate Prefix(a: Trail, b: Trail) {
    a == b || (b.Then? && Prefix(a, b.before))
  }

  ghost function Length(t: Trail): nat {
    if t.Start? then 0 else Length(t.before) + 1
  }

  lemma {:induction false} PrefixLength(a: Trail, b: Trail)
    requires Prefix(a, b)
    ensures Length(a) <= Length(b) && (Length(a) == Length(b) ==> a == b)
  {
    if a != b {
      PrefixLength(a, b.before);
    }
  }

  /** A proper prefix of a leading trail continues in that trail by the next span. */
  lemma {:induction false} PrefixContinues(s: string, a: Trail, b: Trail) returns (sp: Span)
    requires Leading(s, b) && Prefix(a, b) && a != b
    ensures Prefix(Then(a, sp), b)
    ensures a.End() <= sp.open && IsSpan(s, sp) && NoOpener(s, a.End(), sp.open)
  {
    if a == b.before {
      sp := b.last;
    } else {
      sp := PrefixContinues(s, a, b.before);
    }
  }

  lemma {:induction false} StartIsPrefix(t: Trail)
    ensures Prefix(Start, t)
  {
    if t.Then? {
      StartIsPrefix(t.before);
    }
  }

  lemma NoSpanAfterReading(s: string, t: Trail, tail: Option<nat>, sp: Span)
    requires Reading(s, t, tail) && t.End() <= sp.open && NoOpener(s, t.End(), sp.open)
    ensures !IsSpan(s, sp)
  {
    if IsSpan(s, sp) && tail.Some? {
      FirstOpener(s, t.End(), sp.open, tail.value);
      ClosesOrNot(s, sp.open + 2, sp.close);
    }
  }

  /** Whatever a scan has met so far, a complete reading starts with it. */
  lemma {:induction false} LeadingIsPrefix(s: string, a: Trail, b: Trail, tail: Option<nat>)
    requires Leading(s, a) && Reading(s, b, tail)
    ensures Prefix(a, b)
  {
    if a.Start? {
      StartIsPrefix(b);
    } else {
      LeadingIsPrefix(s, a.before, b, tail);
      if a.before == b {
        NoSpanAfterReading(s, b, tail, a.last);
      } else {
        var sp := PrefixContinues(s, a.before, b);
        NextSpanUnique(s, a.before.End(), sp, a.last);
      }
    }
  }

  /** A string has one reading only, so any scanner that produces a reading is determined by it. */
  lemma ReadingUnique(s: string, a: Trail, ta: Option<nat>, b: Trail, tb: Option<nat>)
    requires Reading(s, a, ta) && Reading(s, b, tb)
    ensures a == b && ta == tb
  {
    LeadingIsPrefix(s, a, b, tb);
    LeadingIsPrefix(s, b, a, ta);
    PrefixLength(a, b);
    PrefixLength(b, a);
    if ta.Some? && tb.Some? {
      FirstOpener(s, a.End(), ta.value, tb.value);
    }
  }

  // ---------------------------------------------------------------- scanners

  /** The inner loop of both scanners: walks from just after "${" to just after the matching brace. */
  method MatchBrace(s: string, body: nat) returns (i: nat, braceCount: nat)
    requires body <= |s|
    ensures body <= i <= |s|
    ensures braceCount == 0 ==> i > body && Closes(s, body, i - 1)
    ensures braceCount != 0 ==> i == |s| && Unclosed(s, body)
  {
    i, braceCount := body, 1;
    while i < |s| && braceCount > 0
      invariant body <= i <= |s|
      invariant braceCount == 1 + Depth(s, body, i)
      invariant braceCount > 0 ==> forall j :: body <= j <= i ==> Depth(s, body, j) >= 0
      invariant braceCount == 0 ==> i > body && Closes(s, body, i - 1)
    {
      if s[i] == '{' {
        braceCount := braceCount + 1;
      } else if s[i] == '}' {
        braceCount := braceCount - 1;
      }
      i := i + 1;
    }
  }

  /** What the raw scan has established when it stands at position i. */
  ghost predicate ScannedTo(s: string, t: Trail, tail: Option<nat>, i: nat) {
    && i <= |s| && Leading(s, t)
    && (tail.None? ==> t.End() <= i && NoOpener(s, t.End(), i))
    && (tail.Some? ==> i == |s| && Reading(s, t, tail))
  }

  /** The raw scan of findInterpolations: the bodies of the string's one reading, in order. */
  method FindBodies(s: string) returns (bodies: seq<string>, ghost t: Trail, ghost tail: Option<nat>)
    ensures Reading(s, t, tail) && bodies == Bodies(s, t)
    ensures AreBodies(s, bodies)
  {
    bodies, t, tail := [], Start, None;
    var i := 0;
    while i < |s| - 1
      invariant ScannedTo(s, t, tail, i)
      invariant bodies == Bodies(s, t)
      decreases |s| - i
    {
      if s[i] == '$' && s[i + 1] == '{' {
        var start := i;
        var braceCount;
        i, braceCount := MatchBrace(s, i + 2);
        if braceCount == 0 {
          bodies := bodies + [s[start + 2..i - 1]];
          t := Then(t, Span(start, i - 1));
        } else {
          tail := Some(start);
        }
      } else {
        i := i + 1;
      }
    }
    ReadBodies(s, t, tail);
  }

  /** The bodies of the string's reading. */
  ghost predicate AreBodies(s: string, bodies: seq<string>) {
    exists t, tail :: Reading(s, t, tail) && bodies == Bodies(s, t)
  }

  lemma ReadBodies(s: string, t: Trail, tail: Option<nat>)
    requires Reading(s, t, tail)
    ensures AreBodies(s, Bodies(s, t))
  {
  }

  datatype CharClass = CharClass(isLetter: char -> bool, isDigit: char -> bool)

  predicate IsValidExpression(cc: CharClass, expr: string) {
    && expr != ""
    && (cc.isLetter(expr[0]) || expr[0] == '_')
    && exists i :: 0 <= i < |expr| && (cc.isLetter(expr[i]) || cc.isDigit(expr[i]) || expr[i] == '_')
  }

  /** The search for an identifier character never decides anything: the first character already is one. */
  lemma ValidExpressionIsFirstChar(cc: CharClass, expr: string)
    ensures IsValidExpression(cc, expr) <==>
            expr != "" && (cc.isLetter(expr[0]) || expr[0] == '_')
  {
    if expr != "" && (cc.isLetter(expr[0]) || expr[0] == '_') {
      assert 0 <= 0 < |expr| && (cc.isLetter(expr[0]) || cc.isDigit(expr[0]) || expr[0] == '_');
    }
  }

  function ValidOnly(cc: CharClass, exprs: seq<string>): seq<string> {
    if exprs == [] then []
    else
      var init, last := exprs[..|exprs| - 1], exprs[|exprs| - 1];
      if IsValidExpression(cc, last) then ValidOnly(cc, init) + [last] else ValidOnly(cc, init)
  }

  ghost predicate NoEmptyBody(t: Trail) {
    t.Then? ==> NoEmptyBody(t.before) && t.last.open + 2 != t.last.close
  }

  datatype ParseError = UnclosedAt(pos: nat) | EmptyAt(pos: nat)

  predicate CommentFree(s: string) {
    '/' !in s && '#' !in s
  }

  /** Whether the parser is inside a string literal, and which quote opened it. */
  datatype Quoting = Quoting(inString: bool, quote: char)

  ghost function AfterQuote(s: string, i: nat, q: Quoting): Quoting
    requires i < |s|
  {
    if s[i] !in {'"', '\'', '`'} then q
    else if !q.inString then Quoting(true, s[i])
    else if s[i] == q.quote && (i == 0 || s[i - 1] != '\\') then q.(inString := false)
    else q
  }

  predicate BlockEnd(s: string, p: nat) {
    p + 1 < |s| && s[p] == '*' && s[p + 1] == '/'
  }

  /** i is just past the first end of a block comment at or after p; an unclosed one is left at its last character. */
  ghost predicate PastBlock(s: string, p: nat, i: nat) {
    if exists e :: p <= e && BlockEnd(s, e)
    then p + 2 <= i <= |s| && BlockEnd(s, i - 2) && forall e :: p <= e < i - 2 ==> !BlockEnd(s, e)
    else i == if p < |s| then |s| - 1 else |s|
  }

  function AfterBlock(s: string, p: nat): (i: nat)
    requires p <= |s|
    ensures p <= i <= |s| && PastBlock(s, p, i)
    decreases |s| - p
  {
    if BlockEnd(s, p) then p + 2 else if p + 1 < |s| then AfterBlock(s, p + 1) else p
  }

  /** Outside string literals a comment starts at i. */
  predicate CommentStarts(s: string, i: nat) {
    i < |s| && (s[i] == '#' || (i + 1 < |s| && s[i] == '/' && s[i + 1] in {'/', '*'}))
  }

  function AfterComment(s: string, i: nat): (next: nat)
    requires CommentStarts(s, i)
    ensures i < next <= |s|
  {
    if s[i] == '/' && s[i + 1] == '*' then AfterBlock(s, i + 2) else IndexOf(s, '\n', i)
  }

  /** Where the interpolation whose body starts at `body` is closed, if it is. */
  ghost function ClosingBrace(s: string, body: nat): Option<nat> {
    if c :| body <= c < |s| && Closes(s, body, c) then Some(c) else None
  }

  /** The expressions that the text from position i on contributes, or its first error. */
  ghost function ParseFrom(cc: CharClass, s: string, i: nat, q: Quoting): Result<seq<string>, ParseError>
    decreases |s| - i
  {
    if i >= |s| then Ok([])
    else if !q.inString && CommentStarts(s, i) then ParseFrom(cc, s, AfterComment(s, i), q)
    else if !Opener(s, i) then ParseFrom(cc, s, i + 1, AfterQuote(s, i, q))
    else match ClosingBrace(s, i + 2)
      case None => Err(UnclosedAt(i))
      case Some(close) =>
        var expr, rest := s[i + 2..close], ParseFrom(cc, s, close + 1, q);
        if expr == "" then Err(EmptyAt(i))
        else if IsValidExpression(cc, expr) then Prepend([expr], rest) else rest
  }

  ghost function Prepend(found: seq<string>, r: Result<seq<string>, ParseError>): Result<seq<string>, ParseError> {
    match r
    case Ok(more) => Ok(found + more)
    case Err(_) => r
  }

  ghost function Parse(cc: CharClass, s: string): Result<seq<string>, ParseError> {
    ParseFrom(cc, s, 0, Quoting(false, ' '))
  }

  lemma PrependNothing(a: seq<string>, r: Result<seq<string>, ParseError>)
    ensures Prepend([], r) == r && Prepend(a, Ok([])) == Ok(a)
  {
    assert a + [] == a;
    assert r.Ok? ==> [] + r.value == r.value;
  }

  lemma PrependTwice(a: seq<string>, b: seq<string>, r: Result<seq<string>, ParseError>)
    ensures Prepend(a, Prepend(b, r)) == Prepend(a + b, r)
  {
    if r.Ok? {
      assert a + (b + r.value) == (a + b) + r.value;
    }
  }

  /** Advances to the next line break, or to the end. */
  method SkipLine(s: string, from: nat) returns (i: nat)
    requires from <= |s|
    ensures i == IndexOf(s, '\n', from)
  {
    i := from;
    while i < |s| && s[i] != '\n'
      invariant from <= i <= |s|
      invariant IndexOf(s, '\n', i) == IndexOf(s, '\n', from)
    {
      i := i + 1;
    }
  }

  /** Advances past the end of the block comment that starts at `from`. */
  method SkipBlock(s: string, from: nat) returns (i: nat)
    requires from + 1 < |s|
    ensures i == AfterBlock(s, from + 2) && PastBlock(s, from + 2, i)
  {
    i := from + 2;
    while i + 1 < |s| && (s[i] != '*' || s[i + 1] != '/')
      invariant from + 2 <= i <= |s|
      invariant AfterBlock(s, i) == AfterBlock(s, from + 2)
    {
      i := i + 1;
    }
    if i + 1 < |s| {
      i := i + 2;
    }
  }

  /** The comment cases at the head of the parser's loop; stays put where no comment starts. */
  method SkipComment(s: string, i: nat, inString: bool) returns (next: nat)
    requires i < |s|
    ensures next == if !inString && CommentStarts(s, i) then AfterComment(s, i) else i
  {
    if !inString && i + 1 < |s| && s[i] == '/' && s[i + 1] == '/' {
      next := SkipLine(s, i);
    } else if !inString && i + 1 < |s| && s[i] == '/' && s[i + 1] == '*' {
      next := SkipBlock(s, i);
    } else if !inString && s[i] == '#' {
      next := SkipLine(s, i);
    } else {
      next := i;
    }
  }

  /** Whether position i opens or closes a string literal. */
  method QuoteState(s: string, i: nat, inString: bool, stringChar: char) returns (inside: bool, quote: char)
    requires i < |s|
    ensures Quoting(inside, quote) == AfterQuote(s, i, Quoting(inString, stringChar))
  {
    inside, quote := inString, stringChar;
    if s[i] == '"' || s[i] == '\'' || s[i] == '`' {
      if !inString {
        inside, quote := true, s[i];
      } else if s[i] == stringChar && (i == 0 || s[i - 1] != '\\') {
        inside := false;
      }
    }
  }

  /** What the parser has established when it stands at position i. */
  ghost predicate ParsedTo(cc: CharClass, s: string, t: Trail, found: seq<string>, i: nat) {
    && t.End() <= i <= |s|
    && Sound(s, t) && NoEmptyBody(t)
    && found == ValidOnly(cc, Bodies(s, t))
    && (CommentFree(s) ==> Leading(s, t) && NoOpener(s, t.End(), i))
  }

  lemma ParsedSpan(cc: CharClass, s: string, t: Trail, found: seq<string>, start: nat, close: nat)
    requires ParsedTo(cc, s, t, found, start)
    requires Opener(s, start) && Closes(s, start + 2, close) && start + 2 < close
    ensures var expr := s[start + 2..close];
            ParsedTo(cc, s, Then(t, Span(start, close)),
                     if IsValidExpression(cc, expr) then found + [expr] else found, close + 1)
  {
    var bodies := Bodies(s, Then(t, Span(start, close)));
    assert bodies[..|bodies| - 1] == Bodies(s, t);
  }

  /** What an outcome of the parser says about the string. */
  ghost predicate Explains(cc: CharClass, s: string, t: Trail, r: Result<seq<string>, ParseError>) {
    && Sound(s, t)
    && match r
       case Ok(found) =>
         && found == ValidOnly(cc, Bodies(s, t))
         && NoEmptyBody(t)
         && (CommentFree(s) ==> Reading(s, t, None))
       case Err(UnclosedAt(p)) =>
         && Opener(s, p) && Unclosed(s, p + 2)
         && (CommentFree(s) ==> Reading(s, t, Some(p)))
       case Err(EmptyAt(p)) =>
         && IsSpan(s, Span(p, p + 2))
         && (CommentFree(s) ==> Leading(s, Then(t, Span(p, p + 2))))
  }

  /** What the parser has found so far, followed by what the rest contributes, is the result. */
  ghost predicate Remaining(cc: CharClass, s: string, found: seq<string>, i: nat, q: Quoting) {
    Parse(cc, s) == Prepend(found, ParseFrom(cc, s, i, q))
  }

  lemma RemainingAtStart(cc: CharClass, s: string)
    ensures Remaining(cc, s, [], 0, Quoting(false, ' '))
  {
    PrependNothing([], Parse(cc, s));
  }

  lemma RemainingAtEnd(cc: CharClass, s: string, found: seq<string>, q: Quoting)
    requires Remaining(cc, s, found, |s|, q)
    ensures Parse(cc, s) == Ok(found)
  {
    PrependNothing(found, Parse(cc, s));
  }

  lemma RemainingAfterComment(cc: CharClass, s: string, found: seq<string>, i: nat, q: Quoting)
    requires Remaining(cc, s, found, i, q) && !q.inString && CommentStarts(s, i)
    ensures Remaining(cc, s, found, AfterComment(s, i), q)
  {
  }

  lemma RemainingAfterChar(cc: CharClass, s: string, found: seq<string>, i: nat, q: Quoting)
    requires Remaining(cc, s, found, i, q) && i < |s| && !Opener(s, i)
    requires q.inString || !CommentStarts(s, i)
    ensures Remaining(cc, s, found, i + 1, AfterQuote(s, i, q))
  {
  }

  lemma RemainingAfterSpan(cc: CharClass, s: string, found: seq<string>, i: nat, q: Quoting, close: nat)
    requires Remaining(cc, s, found, i, q) && Opener(s, i)
    requires ClosingBrace(s, i + 2) == Some(close) && close != i + 2
    ensures var expr := s[i + 2..close];
            Remaining(cc, s, if IsValidExpression(cc, expr) then found + [expr] else found, close + 1, q)
  {
    PrependTwice(found, [s[i + 2..close]], ParseFrom(cc, s, close + 1, q));
  }

  lemma RemainingAtError(cc: CharClass, s: string, found: seq<string>, i: nat, q: Quoting)
    requires Remaining(cc, s, found, i, q) && Opener(s, i)
    ensures var c := ClosingBrace(s, i + 2);
            && (c == None ==> Parse(cc, s) == Err(UnclosedAt(i)))
            && (c == Some(i + 2) ==> Parse(cc, s) == Err(EmptyAt(i)))
  {
  }

  /** The inner loop finds the closing brace of the specification, or that there is none. */
  method CloseBrace(s: string, body: nat) returns (i: nat, braceCount: nat)
    requires body <= |s|
    ensures body <= i <= |s| && (braceCount == 0 ==> body < i)
    ensures ClosingBrace(s, body) == if braceCount == 0 then Some(i - 1) else None
    ensures braceCount != 0 ==> Unclosed(s, body)
  {
    i, braceCount := MatchBrace(s, body);
    var r := ClosingBrace(s, body);
    if r.Some? {
      ClosesOrNot(s, body, r.value);
      if braceCount == 0 {
        ClosesAt(s, body, r.value, i - 1);
      }
    }
  }

  /** The parser's whole state at position i: what it has established and what is still to come. */
  ghost predicate At(cc: CharClass, s: string, t: Trail, found: seq<string>, i: nat, q: Quoting) {
    ParsedTo(cc, s, t, found, i) && Remaining(cc, s, found, i, q)
  }

  ghost predicate Stops(cc: CharClass, s: string, t: Trail, error: ParseError) {
    Explains(cc, s, t, Err(error)) && Parse(cc, s) == Err(error)
  }

  lemma AtStart(cc: CharClass, s: string)
    ensures At(cc, s, Start, [], 0, Quoting(false, ' '))
  {
    RemainingAtStart(cc, s);
  }

  lemma AtEnd(cc: CharClass, s: string, t: Trail, found: seq<string>, i: nat, q: Quoting)
    requires At(cc, s, t, found, i, q) && i >= |s|
    ensures Explains(cc, s, t, Ok(found)) && Parse(cc, s) == Ok(found)
  {
    RemainingAtEnd(cc, s, found, q);
  }

  lemma AtAfterComment(cc: CharClass, s: string, t: Trail, found: seq<string>, i: nat, q: Quoting, next: nat)
    requires At(cc, s, t, found, i, q) && !q.inString && CommentStarts(s, i) && next == AfterComment(s, i)
    ensures At(cc, s, t, found, next, q)
  {
    RemainingAfterComment(cc, s, found, i, q);
  }

  lemma AtAfterChar(cc: CharClass, s: string, t: Trail, found: seq<string>, i: nat, q: Quoting, q': Quoting)
    requires At(cc, s, t, found, i, q) && i < |s| && !Opener(s, i) && q' == AfterQuote(s, i, q)
    requires q.inString || !CommentStarts(s, i)
    ensures At(cc, s, t, found, i + 1, q')
  {
    RemainingAfterChar(cc, s, found, i, q);
  }

  lemma AfterSpan(cc: CharClass, s: string, t: Trail, found: seq<string>, i: nat, q: Quoting,
                  next: nat, found': seq<string>)
    requires At(cc, s, t, found, i, q) && Opener(s, i)
    requires i + 3 < next <= |s| && ClosingBrace(s, i + 2) == Some(next - 1)
    requires var expr := s[i + 2..next - 1];
             found' == if IsValidExpression(cc, expr) then found + [expr] else found
    ensures At(cc, s, Then(t, Span(i, next - 1)), found', next, q)
  {
    ParsedSpan(cc, s, t, found, i, next - 1);
    RemainingAfterSpan(cc, s, found, i, q, next - 1);
  }

  lemma StopsUnclosed(cc: CharClass, s: string, t: Trail, found: seq<string>, i: nat, q: Quoting)
    requires At(cc, s, t, found, i, q) && Opener(s, i)
    requires ClosingBrace(s, i + 2) == None && Unclosed(s, i + 2)
    ensures Stops(cc, s, t, UnclosedAt(i))
  {
    RemainingAtError(cc, s, found, i, q);
  }

  lemma StopsEmpty(cc: CharClass, s: string, t: Trail, found: seq<string>, i: nat, q: Quoting)
    requires At(cc, s, t, found, i, q) && Opener(s, i)
    requires ClosingBrace(s, i + 2) == Some(i + 2)
    ensures Stops(cc, s, t, EmptyAt(i))
  {
    RemainingAtError(cc, s, found, i, q);
  }

  /** The interpolation case of the parser's loop. */
  method ParseOne(cc: CharClass, s: string, start: nat, found: seq<string>, ghost t: Trail, ghost q: Quoting)
    returns (i: nat, found': seq<string>, ghost t': Trail, error: Option<ParseError>)
    requires At(cc, s, t, found, start, q) && Opener(s, start)
    ensures start < i <= |s|
    ensures error.None? ==> At(cc, s, t', found', i, q)
    ensures error.Some? ==> Stops(cc, s, t', error.value)
  {
    found', t', error := found, t, None;
    var braceCount;
    i, braceCount := CloseBrace(s, start + 2);
    if braceCount != 0 {
      error := Some(UnclosedAt(start));
      StopsUnclosed(cc, s, t, found, start, q);
    } else if i - 1 == start + 2 {
      error := Some(EmptyAt(start));
      StopsEmpty(cc, s, t, found, start, q);
    } else {
      var expr := s[start + 2..i - 1];
      if IsValidExpression(cc, expr) {
        found' := found + [expr];
      }
      t' := Then(t, Span(start, i - 1));
      AfterSpan(cc, s, t, found, start, q, i, found');
    }
  }

  /**
   ParseInterpolations computes Parse. Whatever the comments, the expressions kept are the
   valid ones among disjoint, in-order, balanced bodies. Where no comment can start, the bodies and
   the error are those of the string's one reading.
   */
  method ParseInterpolations(cc: CharClass, s: string)
    returns (r: Result<seq<string>, ParseError>, ghost t: Trail)
    ensures r == Parse(cc, s)
    ensures Explains(cc, s, t, r)
  {
    var interpolations: seq<string> := [];
    t := Start;
    var i := 0;
    var inString, stringChar := false, ' ';
    AtStart(cc, s);
    while i < |s|
      invariant At(cc, s, t, interpolations, i, Quoting(inString, stringChar))
      decreases |s| - i
    {
      var next := SkipComment(s, i, inString);
      if next != i {
        AtAfterComment(cc, s, t, interpolations, i, Quoting(inString, stringChar), next);
        i := next;
        continue;
      }
      ghost var q := Quoting(inString, stringChar);
      inString, stringChar := QuoteState(s, i, inString, stringChar);
      if i + 1 < |s| && s[i] == '$' && s[i + 1] == '{' {
        var error;
        i, interpolations, t, error := ParseOne(cc, s, i, interpolations, t, q);
        if error.Some? {
          return Err(error.value), t;
        }
        continue;
      }
      AtAfterChar(cc, s, t, interpolations, i, q, Quoting(inString, stringChar));
      i := i + 1;
    }
    AtEnd(cc, s, t, interpolations, i, Quoting(inString, stringChar));
    r := Ok(interpolations);
  }

  lemma {:induction false} EmptyBodyInTrail(s: string, t: Trail)
    requires Sound(s, t)
    ensures NoEmptyBody(t) <==> "" !in Bodies(s, t)
  {
    if t.Then? {
      EmptyBodyInTrail(s, t.before);
      assert |s[t.last.open + 2..t.last.close]| == t.last.close - t.last.open - 2;
    }
  }

  lemma {:induction false} EmptyInPrefix(s: string, a: Trail, b: Trail)
    requires Sound(s, b) && Prefix(a, b) && !NoEmptyBody(a)
    ensures !NoEmptyBody(b)
  {
    if a != b {
      EmptyInPrefix(s, a, b.before);
    }
  }

  lemma EmptySpanIsRead(s: string, empty: Trail, t: Trail, tail: Option<nat>)
    requires Leading(s, empty) && !NoEmptyBody(empty) && Reading(s, t, tail)
    ensures !NoEmptyBody(t)
  {
    LeadingIsPrefix(s, empty, t, tail);
    EmptyInPrefix(s, empty, t);
  }

  /**
   The two scanners agree: with no comment character in the input, the parser succeeds exactly
   when the raw scan closes every opener and finds no empty body, and then its result is the
   valid part of the raw scan's.
   */
  lemma ScannersAgree(cc: CharClass, s: string, t: Trail, tail: Option<nat>,
                      parsed: Result<seq<string>, ParseError>, pt: Trail)
    requires CommentFree(s)
    requires Reading(s, t, tail)         // what FindBodies returns
    requires Explains(cc, s, pt, parsed) // what ParseInterpolations returns
    ensures parsed.Ok? <==> tail.None? && "" !in Bodies(s, t)
    ensures parsed.Ok? ==> parsed.value == ValidOnly(cc, Bodies(s, t))
  {
    EmptyBodyInTrail(s, t);
    match parsed {
      case Ok(_) => ReadingUnique(s, pt, None, t, tail);
      case Err(UnclosedAt(p)) => ReadingUnique(s, pt, Some(p), t, tail);
      case Err(EmptyAt(p)) =>
        var empty := Then(pt, Span(p, p + 2));
        EmptySpanIsRead(s, empty, t, tail);
    }
  }

  /** Both scans of one comment-free string, side by side. */
  method ScanBoth(cc: CharClass, s: string)
    returns (parsed: Result<seq<string>, ParseError>, raw: seq<string>, ghost closed: bool)
    requires CommentFree(s)
    ensures parsed.Ok? <==> closed && "" !in raw
    ensures parsed.Ok? ==> parsed.value == ValidOnly(cc, raw)
    ensures exists t, tail :: Reading(s, t, tail) && raw == Bodies(s, t) && closed == tail.None?
  {
    ghost var pt, t, tail;
    parsed, pt := ParseInterpolations(cc, s);
    raw, t, tail := FindBodies(s);
    ScannersAgree(cc, s, t, tail, parsed, pt);
    closed := tail.None?;
  }

  lemma {:induction false} AbsentIsAtEnd(s: string, c: char, from: nat)
    requires from <= |s| && c !in s[from..]
    ensures IndexOf(s, c, from) == |s|
    decreases |s| - from
  {
    if from < |s| {
      assert s[from..] == [s[from]] + s[from + 1..];
      AbsentIsAtEnd(s, c, from + 1);
    }
  }

  /** An unquoted comment on the last line hides whatever it holds, openers and errors included. */
  lemma LineCommentHides(cc: CharClass, s: string, i: nat, q: Quoting)
    requires !q.inString && i < |s| && (s[i] == '#' || (i + 1 < |s| && s[i] == '/' && s[i + 1] == '/'))
    requires '\n' !in s[i..]
    ensures ParseFrom(cc, s, i, q) == Ok([])
  {
    AbsentIsAtEnd(s, '\n', i);
  }

  /** An unquoted block comment hides everything up to its first end, wherever that is. */
  lemma BlockCommentHides(cc: CharClass, s: string, i: nat, e: nat, q: Quoting)
    requires !q.inString && i + 2 <= e && e + 1 < |s| && s[i] == '/' && s[i + 1] == '*'
    requires s[e] == '*' && s[e + 1] == '/' && forall k :: i + 2 <= k < e ==> !(s[k] == '*' && s[k + 1] == '/')
    ensures ParseFrom(cc, s, i, q) == ParseFrom(cc, s, e + 2, q)
  {
    var next := AfterBlock(s, i + 2);
    assert BlockEnd(s, e) && PastBlock(s, i + 2, next);
    assert next - 2 <= e;
    assert BlockEnd(s, next - 2);
  }

  /** Position k ends a string literal that `quote` has opened. */
  predicate ClosesLiteral(s: string, k: nat, quote: char) {
    k < |s| && s[k] == quote && (k == 0 || s[k - 1] != '\\')
  }

  lemma {:induction false} InsideLiteral(cc: CharClass, s: string, i: nat, j: nat, quote: char)
    requires quote in {'"', '\'', '`'} && i <= j && ClosesLiteral(s, j, quote)
    requires forall k :: i <= k < j ==> !ClosesLiteral(s, k, quote) && !Opener(s, k)
    ensures ParseFrom(cc, s, i, Quoting(true, quote)) == ParseFrom(cc, s, j + 1, Quoting(false, quote))
    decreases j - i
  {
    if i < j {
      assert !ClosesLiteral(s, i, quote) && !Opener(s, i);
      InsideLiteral(cc, s, i + 1, j, quote);
    }
  }

  /**
   A string literal reaches from a quote outside literals and comments to the next unescaped quote of the same kind. Comment
   characters and other quotes in between are text; only an interpolation would be noticed.
   */
  lemma LiteralIsText(cc: CharClass, s: string, i: nat, j: nat, q: Quoting)
    requires !q.inString && i < j < |s| && s[i] in {'"', '\'', '`'} && ClosesLiteral(s, j, s[i])
    requires forall k :: i < k < j ==> !ClosesLiteral(s, k, s[i]) && !Opener(s, k)
    ensures ParseFrom(cc, s, i, q) == ParseFrom(cc, s, j + 1, Quoting(false, s[i]))
  {
    InsideLiteral(cc, s, i + 1, j, s[i]);
  }

  /** With a comment character the scanners differ: the raw scan reads what the parser skips. */
  lemma CommentsSeparateTheScanners(cc: CharClass)
    ensures var s, t := "#${a.b}", Then(Start, Span(1, 6));
            Reading(s, t, None) && Bodies(s, t) == ["a.b"] && Parse(cc, s) == Ok([])
  {
    var s := "#${a.b}";
    assert s[3..6] == "a.b";
    assert Depth(s, 3, 3) == 0 && Depth(s, 3, 4) == 0 && Depth(s, 3, 5) == 0 && Depth(s, 3, 6) == 0;
    LineCommentHides(cc, s, 0, Quoting(false, ' '));
  }

  // ---------------------------------------------------------------- references

  function IndexOf(s: string, c: char, from: nat): (i: nat)
    requires from <= |s|
    ensures from <= i <= |s|
    ensures i < |s| ==> s[i] == c
    ensures forall j :: from <= j < i ==> s[j] != c
    decreases |s| - from
  {
    if from == |s| || s[from] == c then from else IndexOf(s, c, from + 1)
  }

  /** The "type.name" a body refers to: its first two dot-separated parts, unless it has a call or no dot. */
  function Reference(body: string): (r: Option<Key>)
    ensures r.None? <==> '(' in body || '.' !in body
    ensures r.Some? ==> r.value <= body && IndexOf(body, '.', 0) < |r.value|
    ensures r.Some? ==> forall i :: 0 <= i < |r.value| && i != IndexOf(body, '.', 0) ==> r.value[i] != '.'
    ensures r.Some? && |r.value| < |body| ==> body[|r.value|] == '.'
  {
    var dot := IndexOf(body, '.', 0);
    if '(' in body || dot == |body| then None else Some(body[..IndexOf(body, '.', dot + 1)])
  }

  /** The references of all bodies, repetitions included. */
  function References(bodies: seq<string>): (refs: seq<Key>)
    ensures forall k :: k in refs <==> exists i :: 0 <= i < |bodies| && Reference(bodies[i]) == Some(k)
  {
    if bodies == [] then []
    else
      var init, ref := References(bodies[..|bodies| - 1]), Reference(bodies[|bodies| - 1]);
      if ref.Some? then init + [ref.value] else init
  }

  lemma OneMoreReference(bodies: seq<string>, i: nat)
    requires i < |bodies|
    ensures var before, ref := Deduplicated(References(bodies[..i])), Reference(bodies[i]);
            Deduplicated(References(bodies[..i + 1])) ==
            if ref.Some? && ref.value !in before then before + [ref.value] else before
  {
    assert bodies[..i + 1][..i] == bodies[..i];
    var all, ref := References(bodies[..i]), Reference(bodies[i]);
    if ref.Some? {
      assert (all + [ref.value])[..|all|] == all;
    }
  }

  /** ExtractResourceReferences: each reference once, in order of first appearance. */
  method ExtractResourceReferences(bodies: seq<string>) returns (refs: seq<Key>)
    ensures refs == Deduplicated(References(bodies))
  {
    refs := [];
    var seen: set<Key> := {};
    for i := 0 to |bodies|
      invariant refs == Deduplicated(References(bodies[..i])) && seen == Elements(refs)
    {
      OneMoreReference(bodies, i);
      var ref := Reference(bodies[i]);
      if ref.Some? && ref.value !in seen {
        ElementsSnoc(refs, ref.value);
        refs := refs + [ref.value];
        seen := seen + {ref.value};
      }
    }
    assert bodies[..|bodies|] == bodies;
  }

  /** The string contains an interpolation that refers to `key`. */
  ghost predicate StringMentions(s: string, key: Key) {
    exists t, tail :: Reading(s, t, tail) && TrailMentions(s, t, key)
  }

  ghost predicate TrailMentions(s: string, t: Trail, key: Key)
    requires Sound(s, t)
  {
    exists i :: 0 <= i < |Bodies(s, t)| && Reference(Bodies(s, t)[i]) == Some(key)
  }

  lemma MentionByReading(s: string, t: Trail, tail: Option<nat>, key: Key)
    requires Reading(s, t, tail)
    ensures StringMentions(s, key) <==> TrailMentions(s, t, key)
  {
    if StringMentions(s, key) {
      var t', tail' :| Reading(s, t', tail') && TrailMentions(s, t', key);
      ReadingUnique(s, t, tail, t', tail');
    }
  }

  /** findInterpolations: the references of the string's interpolations. */
  method FindInterpolations(s: string) returns (refs: seq<Key>)
    ensures forall k :: k in refs <==> StringMentions(s, k)
  {
    ghost var t, tail;
    var bodies;
    bodies, t, tail := FindBodies(s);
    refs := ExtractResourceReferences(bodies);
    forall k ensures k in refs <==> StringMentions(s, k) {
      MentionByReading(s, t, tail, k);
    }
  }

  /** References always carry a dot, so a key without one is never an edge's target. */
  lemma MentionHasDot(s: string, key: Key)
    requires StringMentions(s, key)
    ensures '.' in key
  {
    var t, tail :| Reading(s, t, tail) && TrailMentions(s, t, key);
    var i :| 0 <= i < |Bodies(s, t)| && Reference(Bodies(s, t)[i]) == Some(key);
  }
}
