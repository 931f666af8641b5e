/** The BrainF language itself: its text, its brackets and the meaning of a
    program, one character at a time.  Nothing here knows about the compiler. */
module BrainFSource {
  import opened Basics

  // ---------------------------------------------------------------- characters

  predicate IsMove(c: char) { c == '<' || c == '>' }

  predicate IsChange(c: char) { c == '+' || c == '-' }

  predicate IsCommand(c: char) {
    IsMove(c) || IsChange(c) || c == ',' || c == '.' || c == '[' || c == ']'
  }

  /** What one character adds to the head or to the cell. */
  function Direction(c: char): int {
    if c == '+' || c == '>' then 1 else if c == '-' || c == '<' then -1 else 0
  }

  // ------------------------------------------------------------------ brackets

  /** The ']' that closes the loop entered `d` levels up, looking right from `i`. */
  function CloseFrom(text: string, i: nat, d: nat): Option<nat>
    requires i <= |text|
    decreases |text| - i
  {
    if i == |text| then None
    else if text[i] == '[' then CloseFrom(text, i + 1, d + 1)
    else if text[i] == ']' then if d == 0 then Some(i) else CloseFrom(text, i + 1, d - 1)
    else CloseFrom(text, i + 1, d)
  }

  /** The '[' that opens the loop left `d` levels up, looking left from `i`. */
  function OpenBefore(text: string, i: nat, d: nat): Option<nat>
    requires i <= |text|
  {
    if i == 0 then None
    else if text[i - 1] == ']' then OpenBefore(text, i - 1, d + 1)
    else if text[i - 1] == '[' then if d == 0 then Some(i - 1) else OpenBefore(text, i - 1, d - 1)
    else OpenBefore(text, i - 1, d)
  }

  /** Opening minus closing brackets among the first `i` characters. */
  function Depth(text: string, i: nat): int
    requires i <= |text|
  {
    if i == 0 then 0
    else Depth(text, i - 1) + (if text[i - 1] == '[' then 1 else if text[i - 1] == ']' then -1 else 0)
  }

  /** Some prefix closes more than it opens. */
  ghost predicate ClosesTooMuch(text: string) { exists i :: 0 <= i <= |text| && Depth(text, i) < 0 }

  /** No prefix closes more than it opens, and the whole text closes all it opens. */
  ghost predicate Balanced(text: string) {
    && (forall i :: 0 <= i <= |text| ==> Depth(text, i) >= 0)
    && Depth(text, |text|) == 0
  }

  // ------------------------------------------------------------------- meaning

  /** What the outside world sees: a byte written, or the line of the bounds check. */
  datatype Event = Put(b: byte) | Puts(line: string)

  const OFF_TAPE := "Error: The head has left the tape."

  datatype State = State(pc: nat, head: int, tape: seq<byte>, input: seq<byte>, output: seq<Event>)

  /** `Faulted`: a cell outside the tape was accessed.  `Malformed`: a bracket has no partner. */
  datatype Config =
    | Going(s: State)
    | Halted(tape: seq<byte>, output: seq<Event>)
    | Faulted(output: seq<Event>)
    | Malformed

  /** From `i` on, is a move the next thing that is not a comment? */
  predicate MoveFollows(text: string, i: nat)
    requires i <= |text|
    decreases |text| - i
  {
    i < |text| && (IsMove(text[i]) || (!IsCommand(text[i]) && MoveFollows(text, i + 1)))
  }

  predicate OnTape(head: int, tape: seq<byte>) { 0 <= head < |tape| }

  /** One character.  With `checks`, the head is tested where a run of moves ends. */
  function Step(text: string, checks: bool, s: State): Config {
    if s.pc >= |text| then Halted(s.tape, s.output)
    else
      var c := text[s.pc];
      var next := s.(pc := s.pc + 1);
      if IsMove(c) then
        var h := s.head + Direction(c);
        if checks && !MoveFollows(text, s.pc + 1) && !OnTape(h, s.tape)
        then Halted(s.tape, s.output + [Puts(OFF_TAPE)])
        else Going(next.(head := h))
      else if c == ']' then
        match OpenBefore(text, s.pc, 0)
        case Some(p) => Going(s.(pc := p))
        case None => Malformed
      else if !IsCommand(c) then Going(next)
      else if !OnTape(s.head, s.tape) then Faulted(s.output)
      else if IsChange(c) then
        Going(next.(tape := s.tape[s.head := (s.tape[s.head] + Direction(c)) % 256]))
      else if c == ',' then
        if s.input == [] then Going(next.(tape := s.tape[s.head := 255]))
        else Going(next.(tape := s.tape[s.head := s.input[0]], input := s.input[1..]))
      else if c == '.' then Going(next.(output := s.output + [Put(s.tape[s.head])]))
      else if s.tape[s.head] != 0 then Going(next)
      else
        match CloseFrom(text, s.pc + 1, 0)
        case Some(q) => Going(s.(pc := q + 1))
        case None => Malformed
  }

  function Next(text: string, checks: bool, c: Config): Config {
    if c.Going? then Step(text, checks, c.s) else c
  }

  /** `n` characters. */
  function Run(text: string, checks: bool, c: Config, n: nat): Config
    decreases n
  {
    if n == 0 then c else Run(text, checks, Next(text, checks, c), n - 1)
  }

  function Start(mem: nat, input: seq<byte>): Config {
    Going(State(0, mem / 2, seq(mem, i => 0), input, []))
  }

  function Output(c: Config): seq<Event> {
    match c
    case Going(s) => s.output
    case Halted(_, o) => o
    case Faulted(o) => o
    case Malformed => []
  }

  lemma {:induction false} RunAdd(text: string, checks: bool, c: Config, m: nat, n: nat)
    ensures Run(text, checks, c, m + n) == Run(text, checks, Run(text, checks, c, m), n)
    decreases m
  {
    if m > 0 {
      RunAdd(text, checks, Next(text, checks, c), m - 1, n);
    }
  }

  lemma {:induction false} RunEnded(text: string, checks: bool, c: Config, n: nat)
    requires !c.Going?
    ensures Run(text, checks, c, n) == c
    decreases n
  {
    if n > 0 {
      RunEnded(text, checks, c, n - 1);
    }
  }

  /** Output is only ever extended (as long as no bracket is found without a partner). */
  lemma {:induction false} OutputGrows(text: string, checks: bool, c: Config, n: nat)
    requires !Run(text, checks, c, n).Malformed?
    ensures Output(c) <= Output(Run(text, checks, c, n))
    decreases n
  {
    if n > 0 {
      if Next(text, checks, c).Malformed? {
        RunEnded(text, checks, Next(text, checks, c), n - 1);
      }
      OutputGrows(text, checks, Next(text, checks, c), n - 1);
    }
  }

  // ------------------------------------------------- facts about matching brackets

  /** Leaving a closed loop brings the search back one level. */
  lemma {:induction false} CloseSkipsLoop(text: string, i: nat, d: nat, q: nat)
    requires i <= |text|
    requires CloseFrom(text, i, d) == Some(q)
    ensures i <= q < |text| && text[q] == ']'
    ensures CloseFrom(text, i, d + 1) == CloseFrom(text, q + 1, 0)
    decreases |text| - i
  {
    if text[i] == '[' {
      CloseSkipsLoop(text, i + 1, d + 1, q);
    } else if text[i] == ']' {
      if d > 0 {
        CloseSkipsLoop(text, i + 1, d - 1, q);
      }
    } else {
      CloseSkipsLoop(text, i + 1, d, q);
    }
  }

  /** Searching left from the partner of a '[' finds that '['. */
  lemma {:induction false} OpenOfClose(text: string, i: nat, d: nat, p: nat, q: nat)
    requires i <= |text|
    requires CloseFrom(text, i, d) == Some(q)
    requires OpenBefore(text, i, d) == Some(p)
    ensures i <= q <= |text|
    ensures OpenBefore(text, q, 0) == Some(p)
    decreases |text| - i
  {
    if text[i] == '[' {
      OpenOfClose(text, i + 1, d + 1, p, q);
    } else if text[i] == ']' {
      if d > 0 {
        OpenOfClose(text, i + 1, d - 1, p, q);
      }
    } else {
      OpenOfClose(text, i + 1, d, p, q);
    }
  }

  /** Where the search stops, the depth has for the first time fallen below the start. */
  lemma {:induction false} CloseDepth(text: string, i: nat, d: nat, q: nat)
    requires i <= |text|
    requires CloseFrom(text, i, d) == Some(q)
    ensures i <= q < |text| && Depth(text, q) == Depth(text, i) - d
    ensures Depth(text, q + 1) == Depth(text, i) - d - 1
    ensures forall k :: i <= k <= q ==> Depth(text, k) >= Depth(text, i) - d
    decreases |text| - i
  {
    if text[i] == '[' {
      CloseDepth(text, i + 1, d + 1, q);
    } else if text[i] == ']' {
      if d > 0 {
        CloseDepth(text, i + 1, d - 1, q);
      }
    } else {
      CloseDepth(text, i + 1, d, q);
    }
  }

  /** An unclosed search never sees the depth fall below the start. */
  lemma {:induction false} NoCloseDepth(text: string, i: nat, d: nat)
    requires i <= |text|
    requires CloseFrom(text, i, d) == None
    ensures forall k :: i <= k <= |text| ==> Depth(text, k) >= Depth(text, i) - d
    decreases |text| - i
  {
    if i < |text| {
      if text[i] == '[' {
        NoCloseDepth(text, i + 1, d + 1);
      } else if text[i] == ']' {
        NoCloseDepth(text, i + 1, d - 1);
      } else {
        NoCloseDepth(text, i + 1, d);
      }
    }
  }
}
