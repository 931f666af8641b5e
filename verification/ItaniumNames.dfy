/** Nested names of the Itanium C++ ABI, taken apart into their parts. */
module ItaniumNames {

  // ---------------------------------------------------------------- what patterns match

  predicate IsDigit(c: char) { '0' <= c <= '9' }
  predicate IsSequence(c: char) { IsDigit(c) || 'A' <= c <= 'Z' }
  predicate IsQualifier(c: char) { c in "rVKRO" }

  /** How many characters at the start satisfy a predicate. */
  function Prefix(p: char -> bool, s: string): (n: nat)
    ensures n <= |s|
  {
    if s == [] || !p(s[0]) then 0 else 1 + Prefix(p, s[1..])
  }

  datatype Split = NoMatch | Match(head: string, tail: string)

  /** One or more characters of a kind, as many as possible, with at least one character left. */
  function Greedy(p: char -> bool, s: string): (r: Split)
    ensures r.Match? ==> r.head != [] && r.tail != [] && r.head + r.tail == s
  {
    var n := Prefix(p, s);
    if 0 < n < |s| then Match(s[..n], s[n..])
    else if n > 1 then Match(s[..n - 1], s[n - 1..])
    else NoMatch
  }

  function MatchNumber(s: string): Split { Greedy(IsDigit, s) }

  /** What is left after `S`, a sequence number and `_`, if anything is. */
  function MatchSubstitution(s: string): (r: Split)
    ensures r.Match? ==> |r.tail| < |s|
  {
    if s == [] || s[0] != 'S' then NoMatch
    else
      var n := 1 + Prefix(IsSequence, s[1..]);
      if n + 1 < |s| && s[n] == '_' then Match(s[..n + 1], s[n + 1..]) else NoMatch
  }

  function SkipQualifiers(s: string): (r: string)
    ensures |r| <= |s|
  {
    var n := Prefix(IsQualifier, s);
    if n < |s| then s[n..] else if n > 0 then s[n - 1..] else s
  }

  function Number(digits: string): nat {
    if digits == [] then 0 else
      var d := digits[|digits| - 1];
      10 * Number(digits[..|digits| - 1]) + if IsDigit(d) then (d - '0') as nat else 0
  }

  function Take(s: string, n: nat): string { if n <= |s| then s[..n] else s }
  function Drop(s: string, n: nat): string { if n <= |s| then s[n..] else [] }

  // ----------------------------------------------------------------------- the parser

  datatype NameResult = NoName | Name(name: string, rest: string)

  /** A name with its length before it, a constructor or destructor, or anything up to an `E`.  It
      splits the string, and fails exactly on an `E` and on what is too short to be split. */
  function ParseName(s: string): (r: NameResult)
    ensures r.Name? <==> |s| > 1 && s[0] != 'E'
    ensures r.Name? ==> r.name != [] && r.name + r.rest == s && |r.rest| < |s|
  {
    var m := MatchNumber(s);
    if m.Match? then NumberSplits(s, m); Name(m.head + Take(m.tail, Number(m.head)), Drop(m.tail, Number(m.head)))
    else if |s| > 2 && s[0] in "CD" && s[1] in "123" then Name(s[..2], s[2..])
    else
      var e := Greedy(c => c != 'E', s);
      UpToE(s);
      if e.Match? then Name(e.head, e.tail) else NoName
  }

  lemma NumberSplits(s: string, m: Split)
    requires m == MatchNumber(s) && m.Match?
    ensures m.head + Take(m.tail, Number(m.head)) + Drop(m.tail, Number(m.head)) == s
    ensures |Drop(m.tail, Number(m.head))| < |s| && |s| > 1 && s[0] != 'E'
  {
    TakeDrop(m.head, m.tail, Number(m.head));
    assert s[0] == m.head[0];
  }

  lemma TakeDrop(head: string, tail: string, n: nat)
    ensures head + Take(tail, n) + Drop(tail, n) == head + tail && |Drop(tail, n)| <= |tail|
  {
    assert Take(tail, n) + Drop(tail, n) == tail;
  }

  lemma UpToE(s: string)
    ensures Greedy(c => c != 'E', s).Match? <==> |s| > 1 && s[0] != 'E'
    ensures Greedy(c => c != 'E', s).Match? ==> |Greedy(c => c != 'E', s).tail| < |s|
  {
  }

  datatype Skipped = Rest(rest: string) | RunsOut | TooComplex

  datatype Parsed = Names(names: seq<(string, bool)>, rest: string) | Failed | Complex

  predicate Starts(s: string, c: char) { s != [] && s[0] == c }

  function SkipTemplate(s: string): (r: Skipped)
    requires Starts(s, 'I')
    ensures r.Rest? ==> |r.rest| < |s|
    decreases |s|, 1
  {
    SkipFrom(s[1..])
  }

  /** Skip the rest of a template argument list. */
  function SkipFrom(s: string): (r: Skipped)
    ensures r.Rest? ==> |r.rest| < |s|
    decreases |s|, 0
  {
    if s == [] then RunsOut
    else
      var m := MatchNumber(s);
      if m.Match? then assert |m.tail| < |s|; SkipFrom(Drop(m.tail, Number(m.head)))
      else if MatchSubstitution(s).Match? then SkipFrom(MatchSubstitution(s).tail)
      else if s[0] == 'I' then
        match SkipFrom(s[1..])
        case Rest(r) => SkipFrom(r)
        case other => other
      else if s[0] == 'N' then
        match NamesFrom(NestedStart(s), [])
        case Names(_, r) => SkipFrom(r)
        case Failed => RunsOut
        case Complex => TooComplex
      else if s[0] == 'L' || s[0] == 'X' then TooComplex
      else if s[0] == 'E' then Rest(s[1..])
      else SkipFrom(s[1..])
  }

  /** After `N`, a substitution if there is one, and qualifiers. */
  function NestedStart(s: string): (r: string)
    requires Starts(s, 'N')
    ensures |r| < |s|
  {
    var m := MatchSubstitution(s[1..]);
    SkipQualifiers(if m.Match? then m.tail else s[1..])
  }

  function ParseNested(s: string): (r: Parsed)
    requires Starts(s, 'N')
    ensures r.Names? ==> |r.rest| < |s|
    decreases |s|, 1
  {
    NamesFrom(NestedStart(s), [])
  }

  /** Names up to the end of the nesting, after those already found. */
  function NamesFrom(s: string, found: seq<(string, bool)>): (r: Parsed)
    ensures r.Names? ==> |r.rest| < |s|
    decreases |s|, 0
  {
    if s == [] then Failed
    else if s[0] == 'E' then Names(found, s[1..])
    else
      match ParseName(s)
      case NoName => Failed
      case Name(name, rest) =>
        if Starts(rest, 'I') then
          match SkipFrom(rest[1..])
          case Rest(r) => NamesFrom(r, found + [(name, true)])
          case RunsOut => Failed
          case TooComplex => Complex
        else NamesFrom(rest, found + [(name, false)])
  }

  // -------------------------------------------------------------------- as it is written

  method SkipItaniumTemplate(arg: string) returns (r: Skipped)
    requires Starts(arg, 'I')
    ensures r == SkipTemplate(arg)
    decreases |arg|
  {
    var tmp := arg[1..];
    while tmp != []
      invariant |tmp| < |arg| && SkipTemplate(arg) == SkipFrom(tmp)
      decreases |tmp|
    {
      var m := MatchNumber(tmp);
      if m.Match? {
        tmp := Drop(m.tail, Number(m.head));
        continue;
      }
      var sub := MatchSubstitution(tmp);
      if sub.Match? {
        tmp := sub.tail;
      } else if tmp[0] == 'I' {
        var inner := SkipItaniumTemplate(tmp);
        if !inner.Rest? { return inner; }
        tmp := inner.rest;
      } else if tmp[0] == 'N' {
        var nested := ParseItaniumNestedName(tmp);
        if nested.Complex? { return TooComplex; }
        if nested.Failed? { return RunsOut; }
        tmp := nested.rest;
      } else if tmp[0] == 'L' || tmp[0] == 'X' {
        return TooComplex;
      } else if tmp[0] == 'E' {
        return Rest(tmp[1..]);
      } else {
        tmp := tmp[1..];
      }
    }
    r := RunsOut;
  }

  method ParseItaniumNestedName(arg: string) returns (r: Parsed)
    requires Starts(arg, 'N')
    ensures r == ParseNested(arg)
    decreases |arg|
  {
    var tmp, found := NestedStart(arg), [];
    while tmp != []
      invariant |tmp| < |arg| && ParseNested(arg) == NamesFrom(tmp, found)
      decreases |tmp|
    {
      if tmp[0] == 'E' { return Names(found, tmp[1..]); }
      var part := ParseName(tmp);
      if part.NoName? { return Failed; }
      var template := false;
      tmp := part.rest;
      if Starts(tmp, 'I') {
        var skipped := SkipItaniumTemplate(tmp);
        if skipped.TooComplex? { return Complex; }
        if skipped.RunsOut? { return Failed; }
        tmp := skipped.rest;
        template := true;
      }
      found := found + [(part.name, template)];
    }
    r := Failed;
  }

  // ----------------------------------------------------------------------- the printer

  datatype Arg =
    | Builtin(c: char)
    | Simple(text: string)
    | Substitution(id: string)
    | Template(args: Args)
    | Nested(sub: Substituted, quals: string, parts: Parts)
    | Expression(literal: bool, text: string)

  datatype Args = NoArgs | MoreArgs(head: Arg, tail: Args)

  datatype Substituted = Absent | Present(id: string)

  datatype Arguments = Plain | With(args: Args)

  /** An identifier, or a constructor or destructor and which one. */
  datatype Part = Ident(text: string) | Structor(kind: char, which: char)

  datatype Parts = NoParts | MoreParts(name: Part, targs: Arguments, tail: Parts)

  /** The decimal digits of a number. */
  function Decimal(n: nat): (s: string)
    ensures s != [] && forall i :: 0 <= i < |s| ==> IsDigit(s[i])
  {
    var d := '0' + (n % 10) as char;
    if n < 10 then [d] else Decimal(n / 10) + [d]
  }

  function PrintName(text: string): string { Decimal(|text|) + text }

  function PrintPart(name: Part): string {
    match name case Ident(text) => PrintName(text) case Structor(c, n) => [c, n]
  }

  function PrintSub(s: Substituted): string { match s case Absent => [] case Present(id) => "S" + id + "_" }

  function PrintArg(a: Arg): string {
    match a
    case Builtin(c) => [c]
    case Simple(text) => PrintName(text)
    case Substitution(id) => "S" + id + "_"
    case Template(args) => "I" + PrintArgs(args) + "E"
    case Nested(sub, quals, parts) => "N" + PrintSub(sub) + quals + PrintParts(parts) + "E"
    case Expression(literal, text) => (if literal then "L" else "X") + text
  }

  function PrintArgs(args: Args): string {
    match args case NoArgs => [] case MoreArgs(h, t) => PrintArg(h) + PrintArgs(t)
  }

  function PrintParts(parts: Parts): string {
    match parts
    case NoParts => []
    case MoreParts(name, Plain, tail) => PrintPart(name) + PrintParts(tail)
    case MoreParts(name, With(args), tail) => PrintPart(name) + "I" + PrintArgs(args) + "E" + PrintParts(tail)
  }

  /** What the parser finds. */
  function Listed(parts: Parts): seq<(string, bool)> {
    match parts case NoParts => [] case MoreParts(name, targs, tail) => [(PrintPart(name), targs.With?)] + Listed(tail)
  }

  /** An identifier is not empty and does not start with a digit. */
  predicate IsIdent(s: string) { s != [] && !IsDigit(s[0]) }

  predicate AllIn(p: char -> bool, s: string) { forall i :: 0 <= i < |s| ==> p(s[i]) }

  /** A character that starts nothing longer in an argument list. */
  predicate IsBuiltin(c: char) { !IsDigit(c) && c != 'S' && c != 'I' && c != 'N' && c != 'L' && c != 'X' && c != 'E' }

  predicate WfSub(s: Substituted) { s.Present? ==> AllIn(IsSequence, s.id) }

  predicate WfArg(a: Arg) {
    match a
    case Builtin(c) => IsBuiltin(c)
    case Simple(text) => IsIdent(text)
    case Substitution(id) => AllIn(IsSequence, id)
    case Template(args) => WfArgs(args)
    case Nested(sub, quals, parts) => WfSub(sub) && AllIn(IsQualifier, quals) && WfParts(parts)
    case Expression(_, _) => true
  }

  predicate WfPart(name: Part) {
    match name case Ident(text) => IsIdent(text) case Structor(c, n) => c in "CD" && n in "123"
  }

  predicate WfArgs(args: Args) { match args case NoArgs => true case MoreArgs(h, t) => WfArg(h) && WfArgs(t) }

  predicate WfParts(parts: Parts) {
    match parts
    case NoParts => true
    case MoreParts(name, targs, tail) => WfPart(name) && (targs.With? ==> WfArgs(targs.args)) && WfParts(tail)
  }

  /** There is an expression among the arguments, at any depth. */
  predicate InArg(a: Arg) {
    match a
    case Template(args) => InArgs(args)
    case Nested(_, _, parts) => InParts(parts)
    case Expression(_, _) => true
    case _ => false
  }

  predicate InArgs(args: Args) { match args case NoArgs => false case MoreArgs(h, t) => InArg(h) || InArgs(t) }

  predicate InParts(parts: Parts) {
    match parts
    case NoParts => false
    case MoreParts(_, targs, tail) => (targs.With? && InArgs(targs.args)) || InParts(tail)
  }

  // --------------------------------------------------------------------- the round trip

  lemma {:induction false} PrefixOf(p: char -> bool, s: string, t: string)
    requires AllIn(p, s) && (t == [] || !p(t[0]))
    ensures Prefix(p, s + t) == |s|
    decreases |s|
  {
    if s != [] {
      assert (s + t)[1..] == s[1..] + t;
      PrefixOf(p, s[1..], t);
    } else {
      assert s + t == t;
    }
  }

  lemma {:induction false} NumberOfDecimal(n: nat)
    ensures Number(Decimal(n)) == n
  {
    if n >= 10 {
      NumberOfDecimal(n / 10);
      assert Decimal(n)[..|Decimal(n)| - 1] == Decimal(n / 10);
    } else {
      assert Decimal(n)[..0] == [];
    }
  }

  /** A length and an identifier are read back, whatever comes after. */
  lemma NumberRead(text: string, rest: string)
    requires IsIdent(text)
    ensures MatchNumber(PrintName(text) + rest) == Match(Decimal(|text|), text + rest)
    ensures Number(Decimal(|text|)) == |text|
    ensures Take(text + rest, |text|) == text && Drop(text + rest, |text|) == rest
  {
    var d := Decimal(|text|);
    assert PrintName(text) + rest == d + (text + rest);
    PrefixOf(IsDigit, d, text + rest);
    NumberOfDecimal(|text|);
  }

  lemma NameRead(text: string, rest: string)
    requires IsIdent(text)
    ensures ParseName(PrintName(text) + rest) == Name(PrintName(text), rest)
  {
    NumberRead(text, rest);
  }

  /** A part of a name is read back, and starts nothing else. */
  lemma PartRead(name: Part, rest: string)
    requires WfPart(name) && rest != []
    ensures ParseName(PrintPart(name) + rest) == Name(PrintPart(name), rest)
    ensures var c := (PrintPart(name) + rest)[0];
      c != 'E' && c != 'I' && c != 'S' && !IsQualifier(c)
  {
    match name {
      case Ident(text) =>
        NameRead(text, rest);
        assert (PrintPart(name) + rest)[0] == Decimal(|text|)[0];
        assert IsDigit(Decimal(|text|)[0]);
      case Structor(c, n) =>
        var s := [c, n] + rest;
        assert s[0] == c && s[1] == n && s[..2] == [c, n] && s[2..] == rest;
        NotNumber(s);
    }
  }

  /** Anything else is taken to be an operator: up to the `E` that ends the nesting, or up to the last
      character when there is none. */
  lemma OperatorRead(op: string, rest: string)
    requires op != [] && rest != [] && !IsDigit(op[0]) && AllIn(c => c != 'E', op)
    requires rest[0] == 'E' || |rest| == 1
    requires !((op + rest)[0] in "CD" && (op + rest)[1] in "123" && |op + rest| > 2)
    ensures ParseName(op + rest) == Name(op, rest)
  {
    var s, notE := op + rest, (c: char) => c != 'E';
    NotNumber(s);
    if rest[0] == 'E' {
      PrefixOf(notE, op, rest);
    } else {
      assert s == s + [];
      PrefixOf(notE, s, []);
    }
    assert s[..|op|] == op && s[|op|..] == rest;
  }

  lemma SubstitutionRead(id: string, rest: string)
    requires AllIn(IsSequence, id) && rest != []
    ensures MatchSubstitution("S" + id + "_" + rest) == Match("S" + id + "_", rest)
  {
    var s := "S" + id + "_" + rest;
    assert s[1..] == id + ("_" + rest);
    PrefixOf(IsSequence, id, "_" + rest);
    assert s[..|id| + 2] == "S" + id + "_";
  }

  /** What comes after the start of a nested name when it is read. */
  lemma NestedRead(sub: Substituted, quals: string, body: string)
    requires WfSub(sub) && AllIn(IsQualifier, quals) && body != [] && !IsQualifier(body[0]) && body[0] != 'S'
    ensures NestedStart("N" + PrintSub(sub) + quals + body) == body
  {
    var s := "N" + PrintSub(sub) + quals + body;
    assert s[1..] == PrintSub(sub) + (quals + body);
    if sub.Present? {
      assert s[1..] == "S" + sub.id + "_" + (quals + body);
      SubstitutionRead(sub.id, quals + body);
    } else {
      assert s[1..] == quals + body;
      assert s[1] != 'S';
    }
    PrefixOf(IsQualifier, quals, body);
  }

  /** The printed arguments and the `E` after them are skipped, unless there is an expression among
      them. */
  lemma {:induction false} ArgsSkipped(args: Args, rest: string)
    requires WfArgs(args)
    ensures SkipFrom(PrintArgs(args) + "E" + rest) == if InArgs(args) then TooComplex else Rest(rest)
    decreases args
  {
    match args
    case NoArgs =>
      assert PrintArgs(args) + "E" + rest == "E" + rest;
      assert ("E" + rest)[1..] == rest;
      NotNumber("E" + rest);
    case MoreArgs(h, t) =>
      var after := PrintArgs(t) + "E" + rest;
      assert PrintArgs(args) + "E" + rest == PrintArg(h) + after;
      ArgSkipped(h, after);
      ArgsSkipped(t, rest);
  }

  lemma NotNumber(s: string)
    requires s == [] || !IsDigit(s[0])
    ensures MatchNumber(s) == NoMatch
  {
  }

  /** A printed argument is stepped over, whatever comes after it, but for expressions. */
  lemma {:induction false} ArgSkipped(a: Arg, after: string)
    requires WfArg(a) && after != []
    ensures SkipFrom(PrintArg(a) + after) == if InArg(a) then TooComplex else SkipFrom(after)
    decreases a
  {
    match a
    case Builtin(c) => BuiltinSkipped(c, after);
    case Simple(text) => NumberRead(text, after);
    case Substitution(id) => SubstitutionSkipped(id, after);
    case Template(args) =>
      ArgsSkipped(args, after);
      GroupArgs(PrintArgs(args), after);
      InnerSkipped(PrintArgs(args) + "E" + after, after);
    case Nested(sub, quals, parts) =>
      NestedParsed(sub, quals, parts, after);
      NameSkipped(PrintArg(a) + after);
    case Expression(literal, text) => ExpressionStops(PrintArg(a) + after);
  }

  lemma ExpressionStops(s: string)
    requires Starts(s, 'L') || Starts(s, 'X')
    ensures SkipFrom(s) == TooComplex
  {
    NotNumber(s);
  }

  lemma BuiltinSkipped(c: char, after: string)
    requires IsBuiltin(c)
    ensures SkipFrom([c] + after) == SkipFrom(after)
  {
    var s := [c] + after;
    NotNumber(s);
    assert s[0] == c && s[1..] == after;
    assert MatchSubstitution(s) == NoMatch;
  }

  lemma SubstitutionSkipped(id: string, after: string)
    requires AllIn(IsSequence, id) && after != []
    ensures SkipFrom("S" + id + "_" + after) == SkipFrom(after)
  {
    NotNumber("S" + id + "_" + after);
    SubstitutionRead(id, after);
  }

  lemma GroupArgs(args: string, after: string)
    ensures "I" + args + "E" + after == "I" + (args + "E" + after)
  {
  }

  lemma InnerSkipped(args: string, after: string)
    requires SkipFrom(args) == Rest(after) || SkipFrom(args) == TooComplex
    ensures SkipFrom("I" + args) == if SkipFrom(args).Rest? then SkipFrom(after) else TooComplex
  {
    NotNumber("I" + args);
    assert ("I" + args)[1..] == args;
  }

  lemma NameSkipped(s: string)
    requires Starts(s, 'N')
    ensures SkipFrom(s) == match NamesFrom(NestedStart(s), [])
      case Names(_, after) => SkipFrom(after) case Failed => RunsOut case Complex => TooComplex
  {
    NotNumber(s);
  }

  /** A printed nested name is read back as its parts, with what comes after it untouched; or found
      too complex if there is an expression in it. */
  lemma {:induction false} NestedParsed(sub: Substituted, quals: string, parts: Parts, rest: string)
    requires WfSub(sub) && AllIn(IsQualifier, quals) && WfParts(parts)
    ensures var s := "N" + PrintSub(sub) + quals + PrintParts(parts) + "E" + rest;
      ParseNested(s) == NamesFrom(NestedStart(s), [])
        == if InParts(parts) then Complex else Names(Listed(parts), rest)
    decreases parts, 1
  {
    var body := PrintParts(parts) + "E" + rest;
    var s := "N" + PrintSub(sub) + quals + PrintParts(parts) + "E" + rest;
    assert s == "N" + PrintSub(sub) + quals + body;
    BodyStart(parts, rest);
    NestedRead(sub, quals, body);
    PartsParsed(parts, [], rest);
    assert [] + Listed(parts) == Listed(parts);
  }

  /** The body of a nested name starts with a name or ends at once. */
  lemma BodyStart(parts: Parts, rest: string)
    requires WfParts(parts)
    ensures var body := PrintParts(parts) + "E" + rest;
      body != [] && !IsQualifier(body[0]) && body[0] != 'S' && body[0] != 'I'
  {
    if parts.MoreParts? {
      PartRead(parts.name, "E");
      assert (PrintParts(parts) + "E" + rest)[0] == (PrintPart(parts.name) + "E")[0];
    }
  }

  lemma {:induction false} PartsParsed(parts: Parts, found: seq<(string, bool)>, rest: string)
    requires WfParts(parts)
    ensures NamesFrom(PrintParts(parts) + "E" + rest, found)
         == if InParts(parts) then Complex else Names(found + Listed(parts), rest)
    decreases parts, 0
  {
    var s := PrintParts(parts) + "E" + rest;
    match parts
    case NoParts =>
      assert s[1..] == rest;
      assert found + Listed(parts) == found;
    case MoreParts(part, targs, tail) =>
      var name, after := PrintPart(part), PrintParts(tail) + "E" + rest;
      ListedNext(found, name, targs.With?, tail);
      PartsParsed(tail, found + [(name, targs.With?)], rest);
      if targs.With? {
        Regroup(name, PrintArgs(targs.args), PrintParts(tail), rest);
        ArgsSkipped(targs.args, after);
        TemplateParsed(part, PrintArgs(targs.args) + "E" + after, after, found);
      } else {
        RegroupPlain(name, PrintParts(tail), rest);
        BodyStart(tail, rest);
        PlainParsed(part, after, found);
      }
  }

  lemma ListedNext(found: seq<(string, bool)>, name: string, template: bool, tail: Parts)
    ensures found + [(name, template)] + Listed(tail) == found + ([(name, template)] + Listed(tail))
  {
  }

  lemma Regroup(name: string, args: string, tail: string, rest: string)
    ensures (name + "I" + args + "E" + tail) + "E" + rest == name + ("I" + (args + "E" + (tail + "E" + rest)))
  {
  }

  lemma RegroupPlain(name: string, tail: string, rest: string)
    ensures (name + tail) + "E" + rest == name + (tail + "E" + rest)
  {
  }

  lemma PlainParsed(name: Part, after: string, found: seq<(string, bool)>)
    requires WfPart(name) && after != [] && !Starts(after, 'I')
    ensures NamesFrom(PrintPart(name) + after, found) == NamesFrom(after, found + [(PrintPart(name), false)])
  {
    PartRead(name, after);
  }

  lemma TemplateParsed(name: Part, args: string, after: string, found: seq<(string, bool)>)
    requires WfPart(name) && (SkipFrom(args) == Rest(after) || SkipFrom(args) == TooComplex)
    ensures NamesFrom(PrintPart(name) + ("I" + args), found)
         == if SkipFrom(args).Rest? then NamesFrom(after, found + [(PrintPart(name), true)]) else Complex
  {
    var rest := "I" + args;
    assert rest[1..] == args && Starts(rest, 'I');
    PartRead(name, rest);
  }
}
