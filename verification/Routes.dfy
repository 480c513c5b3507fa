/**
 Route patterns in `http_protocol_handler.cpp`: a pattern such as `/users/:id` is
 compiled to the text of an ECMAScript regular expression, and a request path is
 matched against the registered ones in order.
 */
module Routes {
  import opened Wrappers
  import opened Text

  // ------------------------------------------------------------------ compilation

  /** `strchr(".*+?^$|{}()", c)`, which also finds the terminating NUL. */
  predicate Escaped(c: char) { c in ".*+?^$|{}()" || c == '\0' }

  const GROUP: string := "([^/]+)"

  datatype Compiled = Compiled(regex: string, names: seq<string>)

  /** Where the parameter that starts at `pos` ends: at the next slash, or with the pattern. */
  function ParamEnd(pattern: string, pos: nat): (end: nat)
    requires pos < |pattern| && pattern[pos] == ':'
    ensures pos < end <= |pattern| && '/' !in pattern[pos..end] && (end < |pattern| ==> pattern[end] == '/')
  {
    var slash := IndexOf(pattern, '/', pos);
    if slash.None? then |pattern| else slash.value
  }

  function CompileFrom(pattern: string, pos: nat): Compiled
    decreases |pattern| - pos
  {
    if pos >= |pattern| then Compiled("", [])
    else if pattern[pos] == ':' then
      var end := ParamEnd(pattern, pos);
      var rest := CompileFrom(pattern, end);
      Compiled(GROUP + rest.regex, [pattern[pos + 1..end]] + rest.names)
    else
      var rest := CompileFrom(pattern, pos + 1);
      Compiled((if Escaped(pattern[pos]) then "\\" else "") + [pattern[pos]] + rest.regex, rest.names)
  }

  function RegexText(pattern: string): string { "^" + CompileFrom(pattern, 0).regex + "$" }

  function ParamNames(pattern: string): seq<string> { CompileFrom(pattern, 0).names }

  // ---------------------------------------------------------- regular expressions

  /** The expressions that compiled patterns use: characters, and groups of non-slashes. */
  datatype Node = Char(c: char) | NonSlashes

  predicate Syntax(c: char) { c in "^$\\.*+?()[]{}|" }

  /**
   The ECMAScript reading of a regular expression text from `i` to its closing `$`, for the part of
   the syntax named above; None for anything else.
   */
  function ReadRegex(t: string, i: nat): Option<seq<Node>>
    decreases |t| - i
  {
    if i >= |t| then None
    else if t[i] == '$' then (if i + 1 == |t| then Some([]) else None)
    else if t[i] == '\\' then
      if i + 1 < |t| && Syntax(t[i + 1]) then Cons(Char(t[i + 1]), ReadRegex(t, i + 2)) else None
    else if i + 7 <= |t| && t[i..i + 7] == GROUP then Cons(NonSlashes, ReadRegex(t, i + 7))
    else if Syntax(t[i]) then None
    else Cons(Char(t[i]), ReadRegex(t, i + 1))
  }

  function Cons(n: Node, rest: Option<seq<Node>>): Option<seq<Node>> {
    if rest.None? then None else Some([n] + rest.value)
  }

  function RegexOf(text: string): Option<seq<Node>> {
    if text != "" && text[0] == '^' then ReadRegex(text, 1) else None
  }

  predicate GoodValue(v: string) { v != "" && '/' !in v }

  /** `path` matches with the groups capturing `captures`, in order. */
  predicate Matches(nodes: seq<Node>, path: string, captures: seq<string>) {
    if nodes == [] then path == "" && captures == []
    else if nodes[0].Char? then path != "" && path[0] == nodes[0].c && Matches(nodes[1..], path[1..], captures)
    else captures != [] && GoodValue(captures[0]) && captures[0] <= path
         && Matches(nodes[1..], path[|captures[0]|..], captures[1..])
  }

  // ----------------------------------------------------------- meaning of a pattern

  function ParamCount(pattern: string, pos: nat): nat
    decreases |pattern| - pos
  {
    if pos >= |pattern| then 0
    else if pattern[pos] == ':' then 1 + ParamCount(pattern, ParamEnd(pattern, pos))
    else ParamCount(pattern, pos + 1)
  }

  /** The pattern from `pos` on with its parameters replaced by `values`. */
  function Fill(pattern: string, pos: nat, values: seq<string>): string
    requires |values| == ParamCount(pattern, pos)
    decreases |pattern| - pos
  {
    if pos >= |pattern| then ""
    else if pattern[pos] == ':' then values[0] + Fill(pattern, ParamEnd(pattern, pos), values[1..])
    else [pattern[pos]] + Fill(pattern, pos + 1, values)
  }

  predicate GoodValues(values: seq<string>) { forall i :: 0 <= i < |values| ==> GoodValue(values[i]) }

  /** `path` is the pattern with each parameter replaced by a non-empty string without slashes. */
  predicate Instance(pattern: string, pos: nat, path: string, values: seq<string>) {
    |values| == ParamCount(pattern, pos) && GoodValues(values) && path == Fill(pattern, pos, values)
  }

  /** Free of the characters whose regular-expression meaning the compiler does not take away. */
  predicate Plain(pattern: string) {
    '[' !in pattern && ']' !in pattern && '\\' !in pattern && '\0' !in pattern
  }

  /** The expression a pattern stands for. */
  function NodesOf(pattern: string, pos: nat): seq<Node>
    decreases |pattern| - pos
  {
    if pos >= |pattern| then []
    else if pattern[pos] == ':' then [NonSlashes] + NodesOf(pattern, ParamEnd(pattern, pos))
    else [Char(pattern[pos])] + NodesOf(pattern, pos + 1)
  }

  // ---------------------------------------------------------------------- theorems

  lemma ReadGroup(t: string, i: nat, rest: string)
    requires i <= |t| && t[i..] == GROUP + rest
    ensures i + 7 <= |t| && t[i + 7..] == rest && ReadRegex(t, i) == Cons(NonSlashes, ReadRegex(t, i + 7))
  {
    assert t[i..][..7] == GROUP && t[i..][7..] == rest;
    assert t[i..i + 7] == t[i..][..7] && t[i + 7..] == t[i..][7..];
    assert t[i] == t[i..i + 7][0];
  }

  lemma ReadEscaped(t: string, i: nat, c: char, rest: string)
    requires i <= |t| && t[i..] == ['\\', c] + rest && Syntax(c)
    ensures i + 2 <= |t| && t[i + 2..] == rest && ReadRegex(t, i) == Cons(Char(c), ReadRegex(t, i + 2))
  {
    assert t[i] == t[i..][0] && t[i + 1] == t[i..][1] && t[i + 2..] == t[i..][2..];
  }

  lemma ReadChar(t: string, i: nat, c: char, rest: string)
    requires i <= |t| && t[i..] == [c] + rest && !Syntax(c)
    ensures i + 1 <= |t| && t[i + 1..] == rest && ReadRegex(t, i) == Cons(Char(c), ReadRegex(t, i + 1))
  {
    assert t[i] == t[i..][0] && t[i + 1..] == t[i..][1..];
    if i + 7 <= |t| {
      assert t[i..i + 7][0] == t[i] && GROUP[0] == '(';
    }
  }

  /** Reading the compiled text back gives the pattern's expression. */
  lemma {:induction false} ReadCompiled(pattern: string, pos: nat, t: string, i: nat)
    requires Plain(pattern) && i <= |t| && t[i..] == CompileFrom(pattern, pos).regex + "$"
    ensures ReadRegex(t, i) == Some(NodesOf(pattern, pos))
    decreases |pattern| - pos
  {
    if pos >= |pattern| {
      assert t[i] == t[i..][0];
    } else if pattern[pos] == ':' {
      var end := ParamEnd(pattern, pos);
      var rest := CompileFrom(pattern, end).regex + "$";
      assert t[i..] == GROUP + rest;
      ReadGroup(t, i, rest);
      ReadCompiled(pattern, end, t, i + 7);
    } else {
      var c, rest := pattern[pos], CompileFrom(pattern, pos + 1).regex + "$";
      assert c in pattern;
      if Escaped(c) {
        assert t[i..] == ['\\', c] + rest;
        ReadEscaped(t, i, c, rest);
        ReadCompiled(pattern, pos + 1, t, i + 2);
      } else {
        assert t[i..] == [c] + rest;
        ReadChar(t, i, c, rest);
        ReadCompiled(pattern, pos + 1, t, i + 1);
      }
    }
  }

  lemma {:induction false} MatchesIsInstance(pattern: string, pos: nat, path: string, values: seq<string>)
    ensures Matches(NodesOf(pattern, pos), path, values) <==> Instance(pattern, pos, path, values)
    decreases |pattern| - pos
  {
    var nodes := NodesOf(pattern, pos);
    if pos >= |pattern| {
    } else if pattern[pos] == ':' {
      var end := ParamEnd(pattern, pos);
      assert nodes[1..] == NodesOf(pattern, end);
      if values != [] && values[0] <= path {
        MatchesIsInstance(pattern, end, path[|values[0]|..], values[1..]);
        assert path == values[0] + path[|values[0]|..];
        assert GoodValues(values) <==> GoodValue(values[0]) && GoodValues(values[1..]);
        if Instance(pattern, pos, path, values) {
          assert path[|values[0]|..] == Fill(pattern, end, values[1..]);
        }
      }
    } else {
      assert nodes[1..] == NodesOf(pattern, pos + 1);
      if path != "" {
        MatchesIsInstance(pattern, pos + 1, path[1..], values);
        assert path == [path[0]] + path[1..];
      }
    }
  }

  // ------------------------------------------------------------------- uniqueness

  /** The length of the longest slash-free prefix. */
  function Run(path: string): (n: nat)
    ensures n <= |path| && '/' !in path[..n] && (n < |path| ==> path[n] == '/')
  {
    if path == "" || path[0] == '/' then 0 else 1 + Run(path[1..])
  }

  lemma RunOf(v: string, x: string)
    requires '/' !in v && (x == "" || x[0] == '/')
    ensures Run(v + x) == |v|
  {
    var s := v + x;
    assert forall i :: 0 <= i < |v| ==> s[i] == v[i];
    assert x != "" ==> s[|v|] == '/';
  }

  lemma RunBounds(v: string, path: string)
    requires '/' !in v && v <= path
    ensures |v| <= Run(path)
  {
    assert forall i :: 0 <= i < |v| ==> path[i] == v[i];
  }

  /** Everything up to the first slash. */
  lemma FirstSegment(v: string, x: string, w: string, y: string)
    requires '/' !in v && '/' !in w && v + x == w + y
    requires (x == "" || x[0] == '/') && (y == "" || y[0] == '/')
    ensures v == w && x == y
  {
    var s, t := v + x, w + y;
    RunOf(v, x);
    RunOf(w, y);
    assert v == s[..|v|] && w == t[..|w|] && x == s[|v|..] && y == t[|w|..];
  }

  /** What follows a parameter starts with a slash, if there is anything. */
  lemma AfterParam(pattern: string, pos: nat, values: seq<string>)
    requires pos < |pattern| && pattern[pos] == ':'
    requires |values| == ParamCount(pattern, ParamEnd(pattern, pos))
    ensures var rest := Fill(pattern, ParamEnd(pattern, pos), values); rest == "" || rest[0] == '/'
  {}

  /** A path is an instance of a pattern in at most one way. */
  lemma {:induction false} CapturesUnique(pattern: string, pos: nat, path: string, one: seq<string>, other: seq<string>)
    requires Instance(pattern, pos, path, one) && Instance(pattern, pos, path, other)
    ensures one == other
    decreases |pattern| - pos
  {
    if pos >= |pattern| {
    } else if pattern[pos] == ':' {
      var end := ParamEnd(pattern, pos);
      var x, y := Fill(pattern, end, one[1..]), Fill(pattern, end, other[1..]);
      AfterParam(pattern, pos, one[1..]);
      AfterParam(pattern, pos, other[1..]);
      FirstSegment(one[0], x, other[0], y);
      CapturesUnique(pattern, end, x, one[1..], other[1..]);
      assert one == [one[0]] + one[1..] && other == [other[0]] + other[1..];
    } else {
      assert path[1..] == Fill(pattern, pos + 1, one) == Fill(pattern, pos + 1, other);
      CapturesUnique(pattern, pos + 1, path[1..], one, other);
    }
  }

  /**
   Route compilation preserves meaning: the generated text is a regular expression that matches a
   path, capturing `values`, if and only if the path is the pattern with its parameters replaced by
   these non-empty, slash-free values.
   */
  lemma CompilationPreservesMeaning(pattern: string, path: string, values: seq<string>)
    requires Plain(pattern)
    ensures RegexOf(RegexText(pattern)).Some?
    ensures Matches(RegexOf(RegexText(pattern)).value, path, values) <==> Instance(pattern, 0, path, values)
  {
    var t := RegexText(pattern);
    assert t[0] == '^' && t[1..] == CompileFrom(pattern, 0).regex + "$";
    ReadCompiled(pattern, 0, t, 1);
    MatchesIsInstance(pattern, 0, path, values);
  }

  // ------------------------------------------------------------- patterns by parts

  /** A pattern as its author sees it. */
  datatype Part = Literal(text: string) | Param(name: string)

  function PatternOf(parts: seq<Part>): string {
    if parts == [] then ""
    else (match parts[0] case Literal(text) => text case Param(name) => ":" + name) + PatternOf(parts[1..])
  }

  function NamesOf(parts: seq<Part>): seq<string> {
    if parts == [] then []
    else (match parts[0] case Literal(_) => [] case Param(name) => [name]) + NamesOf(parts[1..])
  }

  /** The path that the parts make with these values for the parameters. */
  function PathOf(parts: seq<Part>, values: seq<string>): string
    requires |values| == |NamesOf(parts)|
  {
    if parts == [] then ""
    else
      match parts[0]
      case Literal(text) => text + PathOf(parts[1..], values)
      case Param(_) => values[0] + PathOf(parts[1..], values[1..])
  }

  /** A parameter extends to the next slash, and a colon starts one. */
  predicate Separated(parts: seq<Part>) {
    parts == [] ||
    (Separated(parts[1..]) &&
     match parts[0]
     case Literal(text) => ':' !in text
     case Param(name) => '/' !in name && (PatternOf(parts[1..]) == "" || PatternOf(parts[1..])[0] == '/'))
  }

  function Measure(parts: seq<Part>): nat {
    if parts == [] then 0
    else (match parts[0] case Literal(text) => |text| + 1 case Param(_) => 1) + Measure(parts[1..])
  }

  /** From `pos` on the pattern is compiled as these parts are meant, for these values of the parameters. */
  predicate Reads(pattern: string, pos: nat, parts: seq<Part>, values: seq<string>) {
    && CompileFrom(pattern, pos).names == NamesOf(parts) && ParamCount(pattern, pos) == |NamesOf(parts)|
    && (|values| == |NamesOf(parts)| ==> Fill(pattern, pos, values) == PathOf(parts, values))
  }

  function Rest(values: seq<string>): seq<string> { if values == [] then [] else values[1..] }

  lemma FirstParam(pattern: string, pos: nat, name: string, rest: string)
    requires pos <= |pattern| && pattern[pos..] == ":" + name + rest
    requires '/' !in name && (rest == "" || rest[0] == '/')
    ensures pos < |pattern| && pattern[pos] == ':' && ParamEnd(pattern, pos) == pos + 1 + |name|
    ensures pattern[pos + 1..pos + 1 + |name|] == name && pattern[pos + 1 + |name|..] == rest
  {
    var t := pattern[pos..];
    var end := pos + 1 + |name|;
    assert t[1..1 + |name|] == name && t[1 + |name|..] == rest;
    assert pattern[pos + 1..end] == t[1..1 + |name|] && pattern[end..] == t[1 + |name|..];
    assert forall i :: pos < i < end ==> pattern[i] == name[i - pos - 1];
    assert rest != "" ==> pattern[end] == rest[0];
  }

  lemma ReadsParam(pattern: string, pos: nat, parts: seq<Part>, end: nat, values: seq<string>)
    requires pos < |pattern| && pattern[pos] == ':' && ParamEnd(pattern, pos) == end
    requires parts != [] && parts[0] == Param(pattern[pos + 1..end]) && Reads(pattern, end, parts[1..], Rest(values))
    ensures Reads(pattern, pos, parts, values)
  {}

  lemma ReadsEmpty(pattern: string, pos: nat, parts: seq<Part>, values: seq<string>)
    requires parts != [] && parts[0] == Literal("") && Reads(pattern, pos, parts[1..], values)
    ensures Reads(pattern, pos, parts, values)
  {
    assert [] + NamesOf(parts[1..]) == NamesOf(parts[1..]);
    if |values| == |NamesOf(parts)| {
      assert "" + PathOf(parts[1..], values) == PathOf(parts[1..], values);
    }
  }

  lemma HeadOff(text: string, x: string)
    requires text != ""
    ensures text + x == [text[0]] + (text[1..] + x)
  {}

  lemma LetterAt(pattern: string, pos: nat, c: char, rest: string)
    requires pos <= |pattern| && pattern[pos..] == [c] + rest
    ensures pos < |pattern| && pattern[pos] == c && pattern[pos + 1..] == rest
  {
    assert pattern[pos] == pattern[pos..][0] && pattern[pos + 1..] == pattern[pos..][1..];
  }

  lemma EmptyFirst(parts: seq<Part>)
    requires parts != [] && parts[0] == Literal("")
    ensures PatternOf(parts) == PatternOf(parts[1..])
  {
    assert "" + PatternOf(parts[1..]) == PatternOf(parts[1..]);
  }

  /** A literal part without its first character. */
  function Shorter(parts: seq<Part>): (r: seq<Part>)
    requires parts != [] && parts[0].Literal? && parts[0].text != ""
    ensures Measure(r) < Measure(parts) && NamesOf(r) == NamesOf(parts)
    ensures PatternOf(parts) == [parts[0].text[0]] + PatternOf(r)
  {
    var r := [Literal(parts[0].text[1..])] + parts[1..];
    assert r[1..] == parts[1..];
    HeadOff(parts[0].text, PatternOf(parts[1..]));
    r
  }

  lemma ShorterPath(parts: seq<Part>, values: seq<string>)
    requires parts != [] && parts[0].Literal? && parts[0].text != "" && |values| == |NamesOf(parts)|
    ensures PathOf(parts, values) == [parts[0].text[0]] + PathOf(Shorter(parts), values)
  {
    var r := Shorter(parts);
    assert r[1..] == parts[1..];
    HeadOff(parts[0].text, PathOf(parts[1..], values));
  }

  lemma ReadsLetter(pattern: string, pos: nat, parts: seq<Part>, values: seq<string>)
    requires pos < |pattern| && pattern[pos] != ':'
    requires parts != [] && parts[0].Literal? && parts[0].text != "" && parts[0].text[0] == pattern[pos]
    requires Reads(pattern, pos + 1, Shorter(parts), values)
    ensures Reads(pattern, pos, parts, values)
  {
    if |values| == |NamesOf(parts)| {
      ShorterPath(parts, values);
    }
  }

  lemma ShorterSeparated(parts: seq<Part>)
    requires parts != [] && parts[0].Literal? && parts[0].text != "" && Separated(parts)
    ensures Separated(Shorter(parts)) && parts[0].text[0] != ':'
  {
    assert Shorter(parts)[1..] == parts[1..];
  }

  lemma ParamFirst(parts: seq<Part>, name: string, rest: string)
    requires parts != [] && parts[0] == Param(name) && Separated(parts) && PatternOf(parts[1..]) == rest
    ensures PatternOf(parts) == ":" + name + rest && '/' !in name && (rest == "" || rest[0] == '/')
    ensures Separated(parts[1..]) && Measure(parts[1..]) < Measure(parts)
  {}

  lemma LiteralFirst(parts: seq<Part>)
    requires parts != [] && parts[0].Literal? && Separated(parts)
    ensures Separated(parts[1..]) && Measure(parts[1..]) < Measure(parts)
  {}

  lemma ReadsNothing(pattern: string, pos: nat, values: seq<string>)
    requires pos <= |pattern| && pattern[pos..] == ""
    ensures Reads(pattern, pos, [], values)
  {
    assert |pattern[pos..]| == 0;
  }

  lemma ParamAt(pattern: string, pos: nat, parts: seq<Part>) returns (end: nat)
    requires pos <= |pattern| && pattern[pos..] == PatternOf(parts) && Separated(parts)
    requires parts != [] && parts[0].Param?
    ensures pos < end <= |pattern| && pattern[end..] == PatternOf(parts[1..])
    ensures pattern[pos] == ':' && ParamEnd(pattern, pos) == end && parts[0] == Param(pattern[pos + 1..end])
    ensures Separated(parts[1..]) && Measure(parts[1..]) < Measure(parts)
  {
    var name, rest := parts[0].name, PatternOf(parts[1..]);
    ParamFirst(parts, name, rest);
    FirstParam(pattern, pos, name, rest);
    end := pos + 1 + |name|;
  }

  lemma LiteralAt(pattern: string, pos: nat, parts: seq<Part>) returns (later: seq<Part>)
    requires pos <= |pattern| && pattern[pos..] == PatternOf(parts) && Separated(parts)
    requires parts != [] && parts[0].Literal? && parts[0].text != ""
    ensures later == Shorter(parts) && Separated(later) && Measure(later) < Measure(parts)
    ensures pos < |pattern| && pattern[pos] == parts[0].text[0] != ':' && pattern[pos + 1..] == PatternOf(later)
  {
    later := Shorter(parts);
    ShorterSeparated(parts);
    LetterAt(pattern, pos, parts[0].text[0], PatternOf(later));
  }

  lemma {:induction false} PartsRead(pattern: string, pos: nat, parts: seq<Part>, values: seq<string>)
    requires pos <= |pattern| && pattern[pos..] == PatternOf(parts) && Separated(parts)
    ensures Reads(pattern, pos, parts, values)
    decreases Measure(parts)
  {
    if parts == [] {
      ReadsNothing(pattern, pos, values);
    } else if parts[0].Param? {
      var end := ParamAt(pattern, pos, parts);
      PartsRead(pattern, end, parts[1..], Rest(values));
      ReadsParam(pattern, pos, parts, end, values);
    } else if parts[0].text == "" {
      LiteralFirst(parts);
      EmptyFirst(parts);
      PartsRead(pattern, pos, parts[1..], values);
      ReadsEmpty(pattern, pos, parts, values);
    } else {
      var later := LiteralAt(pattern, pos, parts);
      PartsRead(pattern, pos + 1, later, values);
      ReadsLetter(pattern, pos, parts, values);
    }
  }

  /**
   A pattern put together from parts is compiled to the names of its parameters in their order, and a
   path is an instance of it exactly when it is put together from the same parts with good values in
   the places of the parameters.
   */
  lemma PartsMeaning(parts: seq<Part>, path: string, values: seq<string>)
    requires Separated(parts)
    ensures ParamNames(PatternOf(parts)) == NamesOf(parts)
    ensures Instance(PatternOf(parts), 0, path, values)
            <==> |values| == |NamesOf(parts)| && GoodValues(values) && path == PathOf(parts, values)
  {
    var pattern := PatternOf(parts);
    assert pattern[0..] == pattern;
    PartsRead(pattern, 0, parts, values);
  }

  /** Every pattern can be put together so. */
  lemma {:induction false} HasParts(pattern: string, pos: nat) returns (parts: seq<Part>)
    requires pos <= |pattern|
    ensures Separated(parts) && PatternOf(parts) == pattern[pos..]
    decreases |pattern| - pos
  {
    if pos == |pattern| {
      parts := [];
    } else if pattern[pos] == ':' {
      var end := ParamEnd(pattern, pos);
      var rest := HasParts(pattern, end);
      parts := [Param(pattern[pos + 1..end])] + rest;
      assert parts[1..] == rest;
      assert ":" + pattern[pos + 1..end] + pattern[end..] == pattern[pos..];
      assert forall i :: pos < i < end ==> pattern[i] == pattern[pos..end][i - pos];
    } else {
      var rest := HasParts(pattern, pos + 1);
      parts := [Literal([pattern[pos]])] + rest;
      assert parts[1..] == rest;
      assert [pattern[pos]] + pattern[pos + 1..] == pattern[pos..];
    }
  }

  // --------------------------------------------------------------------- matching

  /** A backtracking matcher: a group takes as much as it can and gives back one character at a time. */
  function Search(nodes: seq<Node>, path: string): Option<seq<string>>
    decreases |nodes|, |path| + 2
  {
    if nodes == [] then (if path == "" then Some([]) else None)
    else if nodes[0].Char? then
      if path != "" && path[0] == nodes[0].c then Search(nodes[1..], path[1..]) else None
    else SearchGroup(nodes, path, Run(path))
  }

  function SearchGroup(nodes: seq<Node>, path: string, k: nat): Option<seq<string>>
    requires nodes != [] && k <= |path|
    decreases |nodes|, k + 1
  {
    if k == 0 then None
    else
      var rest := Search(nodes[1..], path[k..]);
      if rest.Some? then Some([path[..k]] + rest.value) else SearchGroup(nodes, path, k - 1)
  }

  /** The matcher finds a match if there is one, and finds only matches. */
  lemma {:induction false} SearchCorrect(nodes: seq<Node>, path: string, captures: seq<string>)
    ensures Search(nodes, path).Some? ==> Matches(nodes, path, Search(nodes, path).value)
    ensures Matches(nodes, path, captures) ==> Search(nodes, path).Some?
    decreases |nodes|, |path| + 2
  {
    if nodes != [] {
      if nodes[0].Char? {
        if path != "" {
          SearchCorrect(nodes[1..], path[1..], captures);
        }
      } else {
        SearchGroupCorrect(nodes, path, Run(path), captures);
        if Matches(nodes, path, captures) {
          RunBounds(captures[0], path);
        }
      }
    }
  }

  lemma {:induction false} SearchGroupCorrect(nodes: seq<Node>, path: string, k: nat, captures: seq<string>)
    requires nodes != [] && nodes[0].NonSlashes? && k <= |path| && '/' !in path[..k]
    ensures SearchGroup(nodes, path, k).Some? ==> Matches(nodes, path, SearchGroup(nodes, path, k).value)
    ensures Matches(nodes, path, captures) && |captures[0]| <= k ==> SearchGroup(nodes, path, k).Some?
    decreases |nodes|, k + 1
  {
    if k > 0 {
      var rest := Search(nodes[1..], path[k..]);
      SearchCorrect(nodes[1..], path[k..], if captures == [] then [] else captures[1..]);
      if rest.Some? {
        var found := [path[..k]] + rest.value;
        assert found[1..] == rest.value && found[0] == path[..k];
      } else {
        assert path[..k - 1] == path[..k][..k - 1];
        SearchGroupCorrect(nodes, path, k - 1, captures);
      }
    }
  }

  // --------------------------------------------------------------- implementation

  datatype Route = Route(pattern: string, names: seq<string>, nodes: seq<Node>)

  predicate WellMade(r: Route) {
    Plain(r.pattern) && r.names == ParamNames(r.pattern) && RegexOf(RegexText(r.pattern)) == Some(r.nodes)
  }

  /** One turn of the compiling loop, on top of what is compiled already. */
  lemma CompileStep(pattern: string, pos: nat, regex: string, names: seq<string>)
    requires pos < |pattern|
    ensures var here := CompileFrom(pattern, pos);
            if pattern[pos] == ':' then
              var end := ParamEnd(pattern, pos);
              var rest := CompileFrom(pattern, end);
              && regex + here.regex == (regex + GROUP) + rest.regex
              && names + here.names == (names + [pattern[pos + 1..end]]) + rest.names
            else
              var rest := CompileFrom(pattern, pos + 1);
              && regex + here.regex
                 == (regex + (if Escaped(pattern[pos]) then "\\" else "") + [pattern[pos]]) + rest.regex
              && names + here.names == names + rest.names
  {}

  /** CreateRouteEntry; None where constructing the regular expression fails or means something else. */
  method CreateRouteEntry(pattern: string) returns (entry: Option<Route>)
    ensures Plain(pattern) ==> entry.Some? && WellMade(entry.value) && entry.value.pattern == pattern
  {
    var regex, names, pos := "^", [], 0;
    while pos < |pattern|
      invariant 0 <= pos <= |pattern|
      invariant regex + CompileFrom(pattern, pos).regex == "^" + CompileFrom(pattern, 0).regex
      invariant names + CompileFrom(pattern, pos).names == ParamNames(pattern)
    {
      CompileStep(pattern, pos, regex, names);
      if pattern[pos] == ':' {
        var slash := IndexOf(pattern, '/', pos);
        var end := if slash.None? then |pattern| else slash.value;
        names := names + [pattern[pos + 1..end]];
        regex := regex + GROUP;
        pos := end;
      } else {
        regex := regex + (if Escaped(pattern[pos]) then "\\" else "") + [pattern[pos]];
        pos := pos + 1;
      }
    }
    assert regex + "" == regex;
    regex := regex + "$";
    assert regex == RegexText(pattern);
    var nodes := RegexOf(regex);
    if Plain(pattern) {
      CompilationPreservesMeaning(pattern, "", []);
    }
    entry := if nodes.None? then None else Some(Route(pattern, names, nodes.value));
  }

  /** Parameters entered under their names; a name used twice keeps the later value. */
  function Bind(names: seq<string>, values: seq<string>, i: nat): map<string, string>
    requires i <= |names| && i <= |values|
  {
    if i == 0 then map[] else Bind(names, values, i - 1)[names[i - 1] := values[i - 1]]
  }

  lemma {:induction false} NamesMatchParams(pattern: string, pos: nat)
    ensures |CompileFrom(pattern, pos).names| == ParamCount(pattern, pos)
    decreases |pattern| - pos
  {
    if pos < |pattern| {
      NamesMatchParams(pattern, if pattern[pos] == ':' then ParamEnd(pattern, pos) else pos + 1);
    }
  }

  /** Exactly the names have values, each the one in its place; a name used twice has the later one. */
  ghost predicate MapsTo(params: map<string, string>, names: seq<string>, values: seq<string>) {
    && |names| == |values|
    && (forall name :: name in params <==> name in names)
    && (forall k :: 0 <= k < |names| && names[k] !in names[k + 1..] ==>
          names[k] in params && params[names[k]] == values[k])
  }

  lemma {:induction false} BindMaps(names: seq<string>, values: seq<string>, n: nat)
    requires n <= |names| == |values|
    ensures MapsTo(Bind(names, values, n), names[..n], values[..n])
  {
    if n > 0 {
      BindMaps(names, values, n - 1);
      BindOneMore(Bind(names, values, n - 1), names[..n - 1], values[..n - 1], names[n - 1], values[n - 1]);
      OneMore(names, n);
      OneMore(values, n);
    }
  }

  lemma OneMore<T>(s: seq<T>, n: nat)
    requires 0 < n <= |s|
    ensures s[..n - 1] + [s[n - 1]] == s[..n]
  {}

  lemma BindOneMore(params: map<string, string>, names: seq<string>, values: seq<string>, name: string, value: string)
    requires MapsTo(params, names, values)
    ensures MapsTo(params[name := value], names + [name], values + [value])
  {
    var more, all := names + [name], values + [value];
    forall k | 0 <= k < |more| && more[k] !in more[k + 1..]
      ensures params[name := value][more[k]] == all[k]
    {
      if k < |names| {
        assert more[k + 1..] == names[k + 1..] + [name];
        assert name in more[k + 1..];
      }
    }
  }

  datatype Found = NotFound | Found(index: nat, params: map<string, string>)

  ghost predicate HasInstance(pattern: string, path: string) {
    exists values :: Instance(pattern, 0, path, values)
  }

  /** A route matches a path through its expression exactly as through its pattern. */
  lemma RouteMatches(r: Route, path: string)
    requires WellMade(r)
    ensures Search(r.nodes, path).Some? <==> HasInstance(r.pattern, path)
    ensures Search(r.nodes, path).Some? ==>
              var values := Search(r.nodes, path).value;
              Instance(r.pattern, 0, path, values) && |values| == |r.names|
  {
    NamesMatchParams(r.pattern, 0);
    if HasInstance(r.pattern, path) {
      var values :| Instance(r.pattern, 0, path, values);
      CompilationPreservesMeaning(r.pattern, path, values);
      SearchCorrect(r.nodes, path, values);
    }
    SearchCorrect(r.nodes, path, []);
    if Search(r.nodes, path).Some? {
      CompilationPreservesMeaning(r.pattern, path, Search(r.nodes, path).value);
    }
  }

  method BindParams(names: seq<string>, values: seq<string>) returns (params: map<string, string>)
    requires |names| == |values|
    ensures params == Bind(names, values, |names|)
  {
    params := map[];
    for i := 0 to |names|
      invariant params == Bind(names, values, i)
    {
      params := params[names[i] := values[i]];
    }
  }

  /** `params` are the values, by name, that make the path an instance of the route's pattern. */
  ghost predicate Captured(r: Route, path: string, params: map<string, string>) {
    exists values :: Instance(r.pattern, 0, path, values) && MapsTo(params, r.names, values)
  }

  /** The first registered route of which the path is an instance, with its parameters. */
  method MatchRoute(routes: seq<Route>, path: string) returns (found: Found)
    requires forall i :: 0 <= i < |routes| ==> WellMade(routes[i])
    ensures found.NotFound? ==> forall i :: 0 <= i < |routes| ==> !HasInstance(routes[i].pattern, path)
    ensures found.Found? ==>
              && found.index < |routes| && Captured(routes[found.index], path, found.params)
              && forall i :: 0 <= i < found.index ==> !HasInstance(routes[i].pattern, path)
  {
    for k := 0 to |routes|
      invariant forall i :: 0 <= i < k ==> !HasInstance(routes[i].pattern, path)
    {
      var r := routes[k];
      RouteMatches(r, path);
      var captures := Search(r.nodes, path);
      if captures.Some? {
        var params := BindParams(r.names, captures.value);
        BindMaps(r.names, captures.value, |r.names|);
        assert r.names[..|r.names|] == r.names && captures.value[..|r.names|] == captures.value;
        return Found(k, params);
      }
    }
    return NotFound;
  }
}
