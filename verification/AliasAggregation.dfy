/** Several alias analyses asked as one. */
module AliasAggregation {
  import opened Basics

  // ------------------------------------------------------------------ mod/ref information

  /** May the memory be modified, may it be referenced; the third bit is cleared when all that
      was found is a must alias. */
  datatype ModRef = ModRef(mod: bool, ref: bool, notMust: bool)

  const NoModRef := ModRef(false, false, true)
  const ModAndRef := ModRef(true, true, true)
  const OnlyMod := ModRef(true, false, true)

  function Intersect(a: ModRef, b: ModRef): ModRef { ModRef(a.mod && b.mod, a.ref && b.ref, a.notMust && b.notMust) }
  function Union(a: ModRef, b: ModRef): ModRef { ModRef(a.mod || b.mod, a.ref || b.ref, a.notMust || b.notMust) }

  predicate IsNone(a: ModRef) { !a.mod && !a.ref }

  /** `a` claims no access that `b` does not. */
  predicate AtMost(a: ModRef, b: ModRef) { (a.mod ==> b.mod) && (a.ref ==> b.ref) }

  /** What a function may do, and where: what its arguments point to, memory the program cannot
      name, anywhere else. */
  datatype Behaviour = Behaviour(access: ModRef, args: bool, hidden: bool, other: bool)

  const Nothing := Behaviour(NoModRef, false, false, false)
  const Anything := Behaviour(ModAndRef, true, true, true)
  const OnlyHidden := Behaviour(ModAndRef, false, true, false)

  function Both(a: Behaviour, b: Behaviour): Behaviour {
    Behaviour(Intersect(a.access, b.access), a.args && b.args, a.hidden && b.hidden, a.other && b.other)
  }

  predicate Within(a: Behaviour, b: Behaviour) {
    AtMost(a.access, b.access) && (a.args ==> b.args) && (a.hidden ==> b.hidden) && (a.other ==> b.other)
  }

  predicate OnlyReads(b: Behaviour) { !b.access.mod }
  predicate DoesNotRead(b: Behaviour) { !b.access.ref }
  predicate OnlyArguments(b: Behaviour) { !b.hidden && !b.other }
  predicate OnlyHiddenOrArguments(b: Behaviour) { !b.other }
  predicate AccessesArguments(b: Behaviour) { !IsNone(b.access) && b.args }

  // -------------------------------------------------------------------- what calls do

  type Place = nat
  type Call = nat

  /** How a call came to a cell of memory. */
  datatype Via = Argument(i: nat) | Hidden | Elsewhere

  datatype Event = Event(cell: nat, write: bool, via: Via)

  /** What calls really do, and the cells of every place. */
  datatype World = World(does: Call -> iset<Event>, cells: Place -> iset<nat>)

  /** The arguments of a call that are pointers, with the place each points to. */
  datatype Argument = Pointer(at: Place) | Scalar

  type Calls = Call -> seq<Argument>

  /** Accesses through an argument stay in its place; no place names hidden memory. */
  ghost predicate Orderly(w: World, args: Calls) {
    forall c: Call, e: Event {:trigger e in w.does(c)} :: e in w.does(c) ==>
      match e.via
      case Argument(i) => i < |args(c)| && args(c)[i].Pointer? && e.cell in w.cells(args(c)[i].at)
      case Hidden => forall l: Place :: e.cell !in w.cells(l)
      case Elsewhere => true
  }

  predicate Claims(a: ModRef, write: bool) { if write then a.mod else a.ref }

  ghost predicate CoversPlace(a: ModRef, w: World, c: Call, l: Place) {
    forall e: Event :: e in w.does(c) && e.cell in w.cells(l) ==> Claims(a, e.write)
  }

  ghost predicate CoversArgument(a: ModRef, w: World, c: Call, i: nat) {
    forall e: Event :: e in w.does(c) && e.via == Argument(i) ==> Claims(a, e.write)
  }

  /** Two accesses depend on each other when they meet and one of them writes. */
  ghost predicate CoversCall(a: ModRef, w: World, c: Call, d: Call) {
    forall e: Event, f: Event ::
      e in w.does(c) && f in w.does(d) && e.cell == f.cell && (e.write || f.write) ==> Claims(a, e.write)
  }

  ghost predicate CoversBehaviour(b: Behaviour, w: World, c: Call) {
    forall e: Event :: e in w.does(c) ==>
      && Claims(b.access, e.write)
      && match e.via case Argument(_) => b.args case Hidden => b.hidden case Elsewhere => b.other
  }

  ghost predicate Apart(w: World, l: Place, m: Place) { forall x :: x in w.cells(l) ==> x !in w.cells(m) }

  ghost predicate NeverWritten(w: World, l: Place) {
    forall c: Call, e: Event {:trigger e in w.does(c)} :: e in w.does(c) && e.cell in w.cells(l) ==> !e.write
  }

  // ------------------------------------------------------------------------- analyses

  datatype Analysis = Analysis(
    alias: (Place, Place) -> Alias,
    constant: Place -> bool,
    argument: (Call, nat) -> ModRef,
    place: (Call, Place) -> ModRef,
    call: (Call, Call) -> ModRef,
    behaviour: Call -> Behaviour)

  ghost predicate Sound(a: Analysis, w: World) {
    && (forall l, m :: a.alias(l, m).NoAlias? ==> Apart(w, l, m))
    && (forall l :: a.constant(l) ==> NeverWritten(w, l))
    && (forall c, i :: CoversArgument(a.argument(c, i), w, c, i))
    && (forall c, l :: CoversPlace(a.place(c, l), w, c, l))
    && (forall c, d :: CoversCall(a.call(c, d), w, c, d))
    && (forall c :: CoversBehaviour(a.behaviour(c), w, c))
  }

  ghost predicate AllSound(aas: seq<Analysis>, w: World) {
    forall i {:trigger aas[i]} :: 0 <= i < |aas| ==> Sound(aas[i], w)
  }

  // ------------------------------------------------------------------------- chaining

  predicate AllMay(aas: seq<Analysis>, l: Place, m: Place) {
    forall i :: 0 <= i < |aas| ==> aas[i].alias(l, m).MayAlias?
  }

  /** The first answer that says anything. */
  method ChainAlias(aas: seq<Analysis>, l: Place, m: Place, ghost w: World) returns (r: Alias)
    requires AllSound(aas, w)
    ensures r.NoAlias? ==> Apart(w, l, m)
    ensures if r.MayAlias? then AllMay(aas, l, m)
      else exists i :: 0 <= i < |aas| && aas[i].alias(l, m) == r && AllMay(aas[..i], l, m)
  {
    var i := 0;
    while i < |aas|
      invariant 0 <= i <= |aas| && AllMay(aas[..i], l, m)
    {
      r := aas[i].alias(l, m);
      if !r.MayAlias? { return; }
      i := i + 1;
    }
    r := MayAlias;
  }

  method ChainConstant(aas: seq<Analysis>, l: Place, ghost w: World) returns (r: bool)
    requires AllSound(aas, w)
    ensures r ==> NeverWritten(w, l)
    ensures r <==> exists i :: 0 <= i < |aas| && aas[i].constant(l)
  {
    var i := 0;
    while i < |aas|
      invariant 0 <= i <= |aas| && forall j :: 0 <= j < i ==> !aas[j].constant(l)
    {
      if aas[i].constant(l) { return true; }
      i := i + 1;
    }
    r := false;
  }

  /** Some analysis knows that the call does not access its argument like this. */
  ghost predicate ArgumentRuledOut(aas: seq<Analysis>, c: Call, k: nat, write: bool) {
    exists i :: 0 <= i < |aas| && !Claims(aas[i].argument(c, k), write)
  }

  method ChainArgument(aas: seq<Analysis>, c: Call, k: nat, ghost w: World) returns (r: ModRef)
    requires AllSound(aas, w)
    ensures CoversArgument(r, w, c, k)
    ensures (r.mod <==> !ArgumentRuledOut(aas, c, k, true)) && (r.ref <==> !ArgumentRuledOut(aas, c, k, false))
  {
    r := ModAndRef;
    var i := 0;
    while i < |aas|
      invariant 0 <= i <= |aas| && CoversArgument(r, w, c, k)
      invariant forall j :: 0 <= j < i ==> AtMost(r, aas[j].argument(c, k))
      invariant (!r.mod ==> ArgumentRuledOut(aas, c, k, true)) && (!r.ref ==> ArgumentRuledOut(aas, c, k, false))
    {
      assert Sound(aas[i], w) && CoversArgument(aas[i].argument(c, k), w, c, k);
      r := Intersect(r, aas[i].argument(c, k));
      if IsNone(r) { return; }
      i := i + 1;
    }
  }

  /** Some analysis knows that the call does not do this, or not there. */
  ghost predicate KnownToRead(aas: seq<Analysis>, c: Call) {
    exists i :: 0 <= i < |aas| && OnlyReads(aas[i].behaviour(c))
  }

  ghost predicate KnownNotToRead(aas: seq<Analysis>, c: Call) {
    exists i :: 0 <= i < |aas| && DoesNotRead(aas[i].behaviour(c))
  }

  ghost predicate KnownNotThroughArguments(aas: seq<Analysis>, c: Call) {
    exists i :: 0 <= i < |aas| && !aas[i].behaviour(c).args
  }

  ghost predicate KnownNotHidden(aas: seq<Analysis>, c: Call) {
    exists i :: 0 <= i < |aas| && !aas[i].behaviour(c).hidden
  }

  ghost predicate KnownNotElsewhere(aas: seq<Analysis>, c: Call) {
    exists i :: 0 <= i < |aas| && !aas[i].behaviour(c).other
  }

  ghost predicate ClearedBySome(aas: seq<Analysis>, c: Call, b: Behaviour) {
    && (!b.access.mod ==> KnownToRead(aas, c)) && (!b.access.ref ==> KnownNotToRead(aas, c))
    && (!b.args ==> KnownNotThroughArguments(aas, c)) && (!b.hidden ==> KnownNotHidden(aas, c))
    && (!b.other ==> KnownNotElsewhere(aas, c))
  }

  /** What all analyses leave possible, and no more. */
  ghost predicate IsChained(aas: seq<Analysis>, c: Call, b: Behaviour) {
    && (b.access.mod <==> !KnownToRead(aas, c)) && (b.access.ref <==> !KnownNotToRead(aas, c))
    && (b.args <==> !KnownNotThroughArguments(aas, c)) && (b.hidden <==> !KnownNotHidden(aas, c))
    && (b.other <==> !KnownNotElsewhere(aas, c))
    && (Unmarked(aas, c) ==> b.access.notMust)
  }

  /** No analysis marks what the call does as a must alias. */
  ghost predicate Unmarked(aas: seq<Analysis>, c: Call) {
    forall i :: 0 <= i < |aas| ==> aas[i].behaviour(c).access.notMust
  }

  ghost predicate ChainedUpTo(aas: seq<Analysis>, c: Call, b: Behaviour, i: nat) {
    && i <= |aas| && ClearedBySome(aas, c, b) && (Unmarked(aas, c) ==> b.access.notMust)
    && forall j :: 0 <= j < i ==> Within(b, aas[j].behaviour(c))
  }

  lemma OneMore(aas: seq<Analysis>, c: Call, b: Behaviour, i: nat)
    requires i < |aas| && ChainedUpTo(aas, c, b, i)
    ensures ChainedUpTo(aas, c, Both(b, aas[i].behaviour(c)), i + 1)
  {
  }

  lemma AllChained(aas: seq<Analysis>, c: Call, b: Behaviour, i: nat)
    requires ChainedUpTo(aas, c, b, i) && (i == |aas| || b == Nothing)
    ensures IsChained(aas, c, b)
  {
  }

  method ChainBehaviour(aas: seq<Analysis>, c: Call, ghost w: World) returns (r: Behaviour)
    requires AllSound(aas, w)
    ensures CoversBehaviour(r, w, c)
    ensures IsChained(aas, c, r)
  {
    r := Anything;
    var i := 0;
    while i < |aas|
      invariant 0 <= i <= |aas| && CoversBehaviour(r, w, c) && ChainedUpTo(aas, c, r, i)
    {
      assert Sound(aas[i], w) && CoversBehaviour(aas[i].behaviour(c), w, c);
      OneMore(aas, c, r, i);
      r := Both(r, aas[i].behaviour(c));
      i := i + 1;
      if r == Nothing { break; }
    }
    AllChained(aas, c, r, i);
  }

  /** Some analysis knows of the two that there is no such access. */
  ghost predicate PairRuledOut(aas: seq<Analysis>, c: Call, l: Place, write: bool) {
    exists i :: 0 <= i < |aas| && !Claims(aas[i].place(c, l), write)
  }

  ghost predicate CallsRuledOut(aas: seq<Analysis>, c: Call, d: Call, write: bool) {
    exists i :: 0 <= i < |aas| && !Claims(aas[i].call(c, d), write)
  }

  method MeetPlace(aas: seq<Analysis>, c: Call, l: Place, ghost w: World) returns (r: ModRef)
    requires AllSound(aas, w)
    ensures CoversPlace(r, w, c, l)
    ensures (r.mod <==> !PairRuledOut(aas, c, l, true)) && (r.ref <==> !PairRuledOut(aas, c, l, false))
  {
    r := ModAndRef;
    var i := 0;
    while i < |aas|
      invariant 0 <= i <= |aas| && CoversPlace(r, w, c, l)
      invariant forall j :: 0 <= j < i ==> AtMost(r, aas[j].place(c, l))
      invariant (!r.mod ==> PairRuledOut(aas, c, l, true)) && (!r.ref ==> PairRuledOut(aas, c, l, false))
    {
      assert Sound(aas[i], w) && CoversPlace(aas[i].place(c, l), w, c, l);
      r := Intersect(r, aas[i].place(c, l));
      if IsNone(r) { return; }
      i := i + 1;
    }
  }

  method MeetCall(aas: seq<Analysis>, c: Call, d: Call, ghost w: World) returns (r: ModRef)
    requires AllSound(aas, w)
    ensures CoversCall(r, w, c, d)
    ensures (r.mod <==> !CallsRuledOut(aas, c, d, true)) && (r.ref <==> !CallsRuledOut(aas, c, d, false))
  {
    r := ModAndRef;
    var i := 0;
    while i < |aas|
      invariant 0 <= i <= |aas| && CoversCall(r, w, c, d)
      invariant forall j :: 0 <= j < i ==> AtMost(r, aas[j].call(c, d))
      invariant (!r.mod ==> CallsRuledOut(aas, c, d, true)) && (!r.ref ==> CallsRuledOut(aas, c, d, false))
    {
      assert Sound(aas[i], w) && CoversCall(aas[i].call(c, d), w, c, d);
      r := Intersect(r, aas[i].call(c, d));
      if IsNone(r) { return; }
      i := i + 1;
    }
  }

  // -------------------------------------------------------------- a call and a place

  /** What the first `k` arguments that may meet the place do to it. */
  ghost predicate CoversFirst(a: ModRef, found: bool, w: World, c: Call, l: Place, k: nat) {
    forall e: Event, i: nat ::
      e in w.does(c) && e.cell in w.cells(l) && e.via == Argument(i) && i < k ==> found && Claims(a, e.write)
  }

  /** Places are answered to be apart exactly if they are said to be. */
  lemma OneAnswer(aas: seq<Analysis>, l: Place, m: Place, r: Alias)
    requires if r.MayAlias? then AllMay(aas, l, m)
      else exists i :: 0 <= i < |aas| && aas[i].alias(l, m) == r && AllMay(aas[..i], l, m)
    ensures SaidApart(aas, l, m) <==> r.NoAlias?
  {
  }

  /** The first analysis that says anything about the places says that they are apart. */
  ghost predicate SaidApart(aas: seq<Analysis>, l: Place, m: Place) {
    exists i :: 0 <= i < |aas| && aas[i].alias(l, m).NoAlias? && AllMay(aas[..i], l, m)
  }

  /** An argument that may meet the place may be accessed like this. */
  ghost predicate MeetsPlace(aas: seq<Analysis>, args: Calls, c: Call, l: Place, k: nat, write: bool) {
    k < |args(c)| && args(c)[k].Pointer? && !SaidApart(aas, args(c)[k].at, l) && !ArgumentRuledOut(aas, c, k, write)
  }

  ghost predicate Meets(aas: seq<Analysis>, args: Calls, c: Call, l: Place, write: bool) {
    exists k: nat :: MeetsPlace(aas, args, c, l, k, write)
  }

  method ThroughArguments(aas: seq<Analysis>, args: Calls, c: Call, l: Place, ghost w: World)
    returns (found: bool, must: bool, mask: ModRef)
    requires AllSound(aas, w) && Orderly(w, args)
    ensures CoversFirst(mask, found, w, c, l, |args(c)|) && (!found ==> IsNone(mask))
    ensures (mask.mod <==> Meets(aas, args, c, l, true)) && (mask.ref <==> Meets(aas, args, c, l, false))
  {
    found, must, mask := false, true, NoModRef;
    var k := 0;
    while k < |args(c)|
      invariant 0 <= k <= |args(c)| && CoversFirst(mask, found, w, c, l, k) && (!found ==> IsNone(mask))
      invariant (mask.mod ==> Meets(aas, args, c, l, true)) && (mask.ref ==> Meets(aas, args, c, l, false))
      invariant forall j: nat :: j < k && MeetsPlace(aas, args, c, l, j, true) ==> mask.mod
      invariant forall j: nat :: j < k && MeetsPlace(aas, args, c, l, j, false) ==> mask.ref
    {
      if args(c)[k].Pointer? {
        var alias := ChainAlias(aas, args(c)[k].at, l, w);
        OneAnswer(aas, args(c)[k].at, l, alias);
        if !alias.NoAlias? {
          var arg := ChainArgument(aas, c, k, w);
          found := true;
          mask := Union(mask, arg);
          assert arg.mod ==> MeetsPlace(aas, args, c, l, k, true);
          assert arg.ref ==> MeetsPlace(aas, args, c, l, k, false);
        }
        must := must && alias.MustAlias?;
      }
      k := k + 1;
    }
  }

  /** What is known rules out that the call accesses the place like this: about the two of them;
      about the call; about its arguments, if it goes through nothing else that has a place; or
      about the place. */
  ghost predicate PlaceRuledOut(aas: seq<Analysis>, args: Calls, c: Call, l: Place, write: bool) {
    || PairRuledOut(aas, c, l, write)
    || (if write then KnownToRead(aas, c) else KnownNotToRead(aas, c) && !KnownToRead(aas, c))
    || (KnownNotElsewhere(aas, c) && (Idle(aas, c) || !Meets(aas, args, c, l, write)))
    || (write && exists i :: 0 <= i < |aas| && aas[i].constant(l))
  }

  /** The call does not access what its arguments point to. */
  ghost predicate Idle(aas: seq<Analysis>, c: Call) {
    KnownNotThroughArguments(aas, c) || (KnownToRead(aas, c) && KnownNotToRead(aas, c))
  }

  /** What an analysis of the two, what is known of the call, and its arguments leave possible. */
  ghost predicate PlaceLeft(aas: seq<Analysis>, args: Calls, c: Call, l: Place, m: ModRef, b: Behaviour, write: bool) {
    && Claims(m, write) && (if write then b.access.mod else b.access.ref || !b.access.mod)
    && (b.other || (AccessesArguments(b) && Meets(aas, args, c, l, write)))
  }

  lemma PlaceExact(aas: seq<Analysis>, args: Calls, c: Call, l: Place, m: ModRef, b: Behaviour, constant: bool)
    requires IsChained(aas, c, b) && (constant <==> exists i :: 0 <= i < |aas| && aas[i].constant(l))
    requires (m.mod <==> !PairRuledOut(aas, c, l, true)) && (m.ref <==> !PairRuledOut(aas, c, l, false))
    ensures PlaceLeft(aas, args, c, l, m, b, true) && !constant <==> !PlaceRuledOut(aas, args, c, l, true)
    ensures PlaceLeft(aas, args, c, l, m, b, false) <==> !PlaceRuledOut(aas, args, c, l, false)
  {
  }

  /** Whatever the call does to the place is claimed, and exactly what nothing rules out. */
  method CallPlace(aas: seq<Analysis>, args: Calls, c: Call, l: Place, ghost w: World) returns (r: ModRef)
    requires AllSound(aas, w) && Orderly(w, args)
    ensures CoversPlace(r, w, c, l)
    ensures r.mod <==> !PlaceRuledOut(aas, args, c, l, true)
    ensures r.ref <==> !PlaceRuledOut(aas, args, c, l, false)
  {
    r := MeetPlace(aas, c, l, w);
    if IsNone(r) { return; }
    var b := ChainBehaviour(aas, c, w);
    ghost var known := exists i :: 0 <= i < |aas| && aas[i].constant(l);
    PlaceExact(aas, args, c, l, r, b, known);
    r := RefinePlace(aas, args, c, l, b, r, w);
    if r.mod {
      var constant := ChainConstant(aas, l, w);
      if constant { r := r.(mod := false); }
    }
  }

  /** Refine by what the call does. */
  method RefinePlace(aas: seq<Analysis>, args: Calls, c: Call, l: Place, b: Behaviour, r0: ModRef, ghost w: World)
    returns (r: ModRef)
    requires AllSound(aas, w) && Orderly(w, args) && CoversPlace(r0, w, c, l) && CoversBehaviour(b, w, c)
    ensures CoversPlace(r, w, c, l)
    ensures r.mod <==> PlaceLeft(aas, args, c, l, r0, b, true)
    ensures r.ref <==> PlaceLeft(aas, args, c, l, r0, b, false)
  {
    if b == Nothing || b == OnlyHidden { return NoModRef; }
    r := r0;
    if OnlyReads(b) {
      r := r.(mod := false);
    } else if DoesNotRead(b) {
      r := r.(ref := false);
    }
    r := RefineByArguments(aas, args, c, l, b, r, w);
  }

  /** A call that goes through nothing but its arguments, or to hidden memory, does to a place what
      it does through arguments that may meet it. */
  method RefineByArguments(aas: seq<Analysis>, args: Calls, c: Call, l: Place, b: Behaviour, r0: ModRef, ghost w: World)
    returns (r: ModRef)
    requires AllSound(aas, w) && Orderly(w, args) && CoversPlace(r0, w, c, l) && CoversBehaviour(b, w, c)
    ensures CoversPlace(r, w, c, l)
    ensures r.mod <==> r0.mod && (b.other || (AccessesArguments(b) && Meets(aas, args, c, l, true)))
    ensures r.ref <==> r0.ref && (b.other || (AccessesArguments(b) && Meets(aas, args, c, l, false)))
  {
    r := r0;
    if OnlyArguments(b) || OnlyHiddenOrArguments(b) {
      var found, must, mask := false, true, NoModRef;
      if AccessesArguments(b) {
        found, must, mask := ThroughArguments(aas, args, c, l, w);
      }
      if !found { return NoModRef; }
      r := Intersect(r, mask).(notMust := !must);
    }
  }

  /** An analysis that knows of every call only whether it may write and may read. */
  function Knowing(write: bool, read: bool): Analysis {
    Analysis((l, m) => MayAlias, l => false, (c, i) => ModAndRef, (c, l) => ModAndRef, (c, d) => ModAndRef,
             c => Behaviour(ModRef(write, read, true), true, true, true))
  }

  /** One analysis knows that calls only read and another that they do not read; calls do neither,
      and still are said to reference any place. */
  lemma NeitherKeepsRef(w: World, args: Calls, c: Call, l: Place)
    requires forall d: Call :: w.does(d) == iset{}
    ensures var aas := [Knowing(false, true), Knowing(true, false)];
      && AllSound(aas, w) && Orderly(w, args) && KnownToRead(aas, c) && KnownNotToRead(aas, c)
      && !PlaceRuledOut(aas, args, c, l, false)
  {
    var aas := [Knowing(false, true), Knowing(true, false)];
    forall i | 0 <= i < |aas| ensures Sound(aas[i], w) {
    }
    assert OnlyReads(aas[0].behaviour(c)) && DoesNotRead(aas[1].behaviour(c));
  }

  // ----------------------------------------------------------------- a call and a call

  /** Every dependence through the first `k` arguments of `d` is claimed. */
  ghost predicate CoversSecond(a: ModRef, w: World, c: Call, d: Call, k: nat) {
    forall e: Event, f: Event, i: nat ::
      e in w.does(c) && f in w.does(d) && e.cell == f.cell && (e.write || f.write) ==>
      f.via == Argument(i) && i < k ==> Claims(a, e.write)
  }

  ghost predicate CoversOwn(a: ModRef, w: World, c: Call, d: Call, k: nat) {
    forall e: Event, f: Event, i: nat ::
      e in w.does(c) && f in w.does(d) && e.cell == f.cell && (e.write || f.write) ==>
      e.via == Argument(i) && i < k ==> Claims(a, e.write)
  }

  /** What matters about an access to memory that another call treats like this. */
  function Inverse(theirs: ModRef): ModRef {
    if theirs.mod then ModAndRef else if theirs.ref then OnlyMod else NoModRef
  }

  lemma SecondStep(r: ModRef, args: Calls, c: Call, d: Call, k: nat, theirs: ModRef, ours: ModRef, meet: ModRef,
                   w: World)
    requires Orderly(w, args) && k < |args(d)| && args(d)[k].Pointer?
    requires CoversSecond(r, w, c, d, k) && CoversCall(meet, w, c, d)
    requires CoversArgument(theirs, w, d, k) && CoversPlace(ours, w, c, args(d)[k].at)
    ensures CoversSecond(Intersect(Union(r, Intersect(Inverse(theirs), ours)), meet), w, c, d, k + 1)
  {
    var a := Intersect(Union(r, Intersect(Inverse(theirs), ours)), meet);
    forall e: Event, f: Event, i: nat
      | e in w.does(c) && f in w.does(d) && e.cell == f.cell && (e.write || f.write) && f.via == Argument(i)
        && i < k + 1
      ensures Claims(a, e.write)
    {
      assert Claims(meet, e.write);
      if i == k {
        assert Claims(theirs, f.write) && Claims(ours, e.write);
      } else {
        assert Claims(r, e.write);
      }
    }
  }

  /** The first call may access an argument's place like this, in a way that what the second may do
      there depends on. */
  ghost predicate DependsOnSecond(aas: seq<Analysis>, args: Calls, c: Call, d: Call, k: nat, write: bool) {
    && k < |args(d)| && args(d)[k].Pointer? && !PlaceRuledOut(aas, args, c, args(d)[k].at, write)
    && (!ArgumentRuledOut(aas, d, k, true) || (write && !ArgumentRuledOut(aas, d, k, false)))
  }

  ghost predicate AnySecond(aas: seq<Analysis>, args: Calls, c: Call, d: Call, write: bool) {
    exists k: nat :: DependsOnSecond(aas, args, c, d, k, write)
  }

  /** The claims that the first `k` arguments of the second call lead to. */
  ghost predicate SecondUpTo(r: ModRef, aas: seq<Analysis>, args: Calls, c: Call, d: Call, meet: ModRef, k: nat) {
    && AtMost(r, meet) && (r.mod ==> AnySecond(aas, args, c, d, true)) && (r.ref ==> AnySecond(aas, args, c, d, false))
    && (forall j: nat :: j < k && DependsOnSecond(aas, args, c, d, j, true) ==> meet.mod ==> r.mod)
    && (forall j: nat :: j < k && DependsOnSecond(aas, args, c, d, j, false) ==> meet.ref ==> r.ref)
  }

  /** The second call only goes through its arguments: what the first does to each of them. */
  method SecondThroughArguments(aas: seq<Analysis>, args: Calls, c: Call, d: Call, meet: ModRef, ghost w: World)
    returns (r: ModRef)
    requires AllSound(aas, w) && Orderly(w, args) && CoversCall(meet, w, c, d)
    ensures CoversSecond(r, w, c, d, |args(d)|)
    ensures r.mod <==> meet.mod && AnySecond(aas, args, c, d, true)
    ensures r.ref <==> meet.ref && AnySecond(aas, args, c, d, false)
  {
    r := NoModRef;
    var must, k := true, 0;
    while k < |args(d)|
      invariant 0 <= k <= |args(d)| && CoversSecond(r, w, c, d, k) && SecondUpTo(r, aas, args, c, d, meet, k)
    {
      if args(d)[k].Pointer? {
        var sure;
        r, sure := TakeSecond(aas, args, c, d, meet, k, r, w);
        must := must && sure;
        if r == meet {
          if k + 1 != |args(d)| { must := false; }
          SecondAll(r, w, c, d, |args(d)|);
          break;
        }
      } else {
        SecondSkip(r, args, w, c, d, k);
      }
      k := k + 1;
    }
    r := r.(notMust := !must);
  }

  method TakeSecond(aas: seq<Analysis>, args: Calls, c: Call, d: Call, meet: ModRef, k: nat, r0: ModRef, ghost w: World)
    returns (r: ModRef, must: bool)
    requires AllSound(aas, w) && Orderly(w, args) && CoversCall(meet, w, c, d) && k < |args(d)| && args(d)[k].Pointer?
    requires CoversSecond(r0, w, c, d, k) && SecondUpTo(r0, aas, args, c, d, meet, k)
    ensures CoversSecond(r, w, c, d, k + 1) && SecondUpTo(r, aas, args, c, d, meet, k + 1)
  {
    var theirs := ChainArgument(aas, d, k, w);
    var ours := CallPlace(aas, args, c, args(d)[k].at, w);
    var mask := Intersect(Inverse(theirs), ours);
    assert mask.mod <==> DependsOnSecond(aas, args, c, d, k, true);
    assert mask.ref <==> DependsOnSecond(aas, args, c, d, k, false);
    SecondStep(r0, args, c, d, k, theirs, ours, meet, w);
    r := Intersect(Union(r0, mask), meet);
    must := !ours.notMust;
  }

  lemma SecondAll(meet: ModRef, w: World, c: Call, d: Call, k: nat)
    requires CoversCall(meet, w, c, d)
    ensures CoversSecond(meet, w, c, d, k)
  {
  }

  lemma SecondSkip(r: ModRef, args: Calls, w: World, c: Call, d: Call, k: nat)
    requires Orderly(w, args) && k < |args(d)| && !args(d)[k].Pointer? && CoversSecond(r, w, c, d, k)
    ensures CoversSecond(r, w, c, d, k + 1)
  {
  }

  /** What one argument adds, if the other call meets it. */
  function Joined(r: ModRef, ours: ModRef, theirs: ModRef, meet: ModRef): ModRef {
    if (ours.mod && !IsNone(theirs)) || (ours.ref && theirs.mod) then Intersect(Union(r, ours), meet) else r
  }

  lemma FirstStep(r: ModRef, args: Calls, c: Call, d: Call, k: nat, theirs: ModRef, ours: ModRef, meet: ModRef,
                  w: World)
    requires Orderly(w, args) && k < |args(c)| && args(c)[k].Pointer?
    requires CoversOwn(r, w, c, d, k) && CoversCall(meet, w, c, d)
    requires CoversArgument(ours, w, c, k) && CoversPlace(theirs, w, d, args(c)[k].at)
    ensures CoversOwn(Joined(r, ours, theirs, meet), w, c, d, k + 1)
  {
    var a := Joined(r, ours, theirs, meet);
    forall e: Event, f: Event, i: nat
      | e in w.does(c) && f in w.does(d) && e.cell == f.cell && (e.write || f.write) && e.via == Argument(i)
        && i < k + 1
      ensures Claims(a, e.write)
    {
      assert Claims(meet, e.write);
      if i == k {
        assert Claims(ours, e.write) && Claims(theirs, f.write);
      } else {
        assert Claims(r, e.write);
      }
    }
  }

  /** The first call may access an argument like this, and the second may do something to its place
      that depends on what the first may do there. */
  ghost predicate DependsOnFirst(aas: seq<Analysis>, args: Calls, c: Call, d: Call, k: nat, write: bool) {
    && k < |args(c)| && args(c)[k].Pointer? && !ArgumentRuledOut(aas, c, k, write)
    && var at := args(c)[k].at;
       || (!ArgumentRuledOut(aas, c, k, true) && !PlaceRuledOut(aas, args, d, at, false))
       || (!ArgumentRuledOut(aas, c, k, true) && !PlaceRuledOut(aas, args, d, at, true))
       || (!ArgumentRuledOut(aas, c, k, false) && !PlaceRuledOut(aas, args, d, at, true))
  }

  ghost predicate AnyFirst(aas: seq<Analysis>, args: Calls, c: Call, d: Call, write: bool) {
    exists k: nat :: DependsOnFirst(aas, args, c, d, k, write)
  }

  /** The claims that the first `k` arguments of the first call lead to. */
  ghost predicate FirstUpTo(r: ModRef, aas: seq<Analysis>, args: Calls, c: Call, d: Call, meet: ModRef, k: nat) {
    && AtMost(r, meet) && (r.mod ==> AnyFirst(aas, args, c, d, true)) && (r.ref ==> AnyFirst(aas, args, c, d, false))
    && (forall j: nat :: j < k && DependsOnFirst(aas, args, c, d, j, true) ==> meet.mod ==> r.mod)
    && (forall j: nat :: j < k && DependsOnFirst(aas, args, c, d, j, false) ==> meet.ref ==> r.ref)
  }

  /** The first call only goes through its arguments: whether the second meets any of them. */
  method FirstThroughArguments(aas: seq<Analysis>, args: Calls, c: Call, d: Call, meet: ModRef, ghost w: World)
    returns (r: ModRef)
    requires AllSound(aas, w) && Orderly(w, args) && CoversCall(meet, w, c, d)
    ensures CoversOwn(r, w, c, d, |args(c)|)
    ensures r.mod <==> meet.mod && AnyFirst(aas, args, c, d, true)
    ensures r.ref <==> meet.ref && AnyFirst(aas, args, c, d, false)
  {
    r := NoModRef;
    var must, k := true, 0;
    while k < |args(c)|
      invariant 0 <= k <= |args(c)| && CoversOwn(r, w, c, d, k) && FirstUpTo(r, aas, args, c, d, meet, k)
    {
      if args(c)[k].Pointer? {
        var sure;
        r, sure := TakeFirst(aas, args, c, d, meet, k, r, w);
        must := must && sure;
        if r == meet {
          if k + 1 != |args(c)| { must := false; }
          FirstAll(r, w, c, d, |args(c)|);
          break;
        }
      } else {
        FirstSkip(r, args, w, c, d, k);
      }
      k := k + 1;
    }
    r := r.(notMust := !must);
  }

  method TakeFirst(aas: seq<Analysis>, args: Calls, c: Call, d: Call, meet: ModRef, k: nat, r0: ModRef, ghost w: World)
    returns (r: ModRef, must: bool)
    requires AllSound(aas, w) && Orderly(w, args) && CoversCall(meet, w, c, d) && k < |args(c)| && args(c)[k].Pointer?
    requires CoversOwn(r0, w, c, d, k) && FirstUpTo(r0, aas, args, c, d, meet, k)
    ensures CoversOwn(r, w, c, d, k + 1) && FirstUpTo(r, aas, args, c, d, meet, k + 1)
  {
    var ours := ChainArgument(aas, c, k, w);
    var theirs := CallPlace(aas, args, d, args(c)[k].at, w);
    FirstDepends(aas, args, c, d, k, ours, theirs);
    FirstStep(r0, args, c, d, k, theirs, ours, meet, w);
    r := Joined(r0, ours, theirs, meet);
    must := !theirs.notMust;
  }

  lemma FirstDepends(aas: seq<Analysis>, args: Calls, c: Call, d: Call, k: nat, ours: ModRef, theirs: ModRef)
    requires k < |args(c)| && args(c)[k].Pointer?
    requires (ours.mod <==> !ArgumentRuledOut(aas, c, k, true)) && (ours.ref <==> !ArgumentRuledOut(aas, c, k, false))
    requires theirs.mod <==> !PlaceRuledOut(aas, args, d, args(c)[k].at, true)
    requires theirs.ref <==> !PlaceRuledOut(aas, args, d, args(c)[k].at, false)
    ensures DependsOnFirst(aas, args, c, d, k, true) <==>
      ours.mod && ((ours.mod && !IsNone(theirs)) || (ours.ref && theirs.mod))
    ensures DependsOnFirst(aas, args, c, d, k, false) <==>
      ours.ref && ((ours.mod && !IsNone(theirs)) || (ours.ref && theirs.mod))
  {
  }

  lemma FirstAll(meet: ModRef, w: World, c: Call, d: Call, k: nat)
    requires CoversCall(meet, w, c, d)
    ensures CoversOwn(meet, w, c, d, k)
  {
  }

  lemma FirstSkip(r: ModRef, args: Calls, w: World, c: Call, d: Call, k: nat)
    requires Orderly(w, args) && k < |args(c)| && !args(c)[k].Pointer? && CoversOwn(r, w, c, d, k)
    ensures CoversOwn(r, w, c, d, k + 1)
  {
  }

  ghost predicate KnownToUseArguments(aas: seq<Analysis>, c: Call) {
    KnownNotHidden(aas, c) && KnownNotElsewhere(aas, c)
  }

  /** What is known rules out that the second call depends on the first accessing memory like this:
      about the two of them; about what they do; about the arguments of the second, or else of the
      first, if it goes through nothing else. */
  ghost predicate CallRuledOut(aas: seq<Analysis>, args: Calls, c: Call, d: Call, write: bool) {
    || CallsRuledOut(aas, c, d, write)
    || (KnownToRead(aas, c) && KnownToRead(aas, d))
    || (if write then KnownToRead(aas, c) else KnownNotToRead(aas, c) && !KnownToRead(aas, c))
    || (KnownToRead(aas, c) && KnownNotToRead(aas, c) && KnownNotThroughArguments(aas, c)
        && KnownToUseArguments(aas, c))
    || (if KnownToUseArguments(aas, d) then
          Idle(aas, d) || !AnySecond(aas, args, c, d, write)
        else
          KnownToUseArguments(aas, c) && (Idle(aas, c) || !AnyFirst(aas, args, c, d, write)))
  }

  /** What an analysis of the two, what is known of each, and their arguments leave possible. */
  ghost predicate CallLeft(aas: seq<Analysis>, args: Calls, c: Call, d: Call, m: ModRef, b1: Behaviour, b2: Behaviour,
                           write: bool) {
    && Claims(m, write) && b1 != Nothing && b2 != Nothing && !(OnlyReads(b1) && OnlyReads(b2))
    && (if write then b1.access.mod else b1.access.ref || !b1.access.mod) && Left(aas, args, c, d, b1, b2, write)
  }

  lemma CallExact(aas: seq<Analysis>, args: Calls, c: Call, d: Call, m: ModRef, b1: Behaviour, b2: Behaviour,
                  write: bool)
    requires IsChained(aas, c, b1) && IsChained(aas, d, b2) && Unmarked(aas, c) && Unmarked(aas, d)
    requires Claims(m, write) <==> !CallsRuledOut(aas, c, d, write)
    ensures CallLeft(aas, args, c, d, m, b1, b2, write) <==> !CallRuledOut(aas, args, c, d, write)
  {
  }

  /** Whenever the calls touch the same cell and one of them writes it, the matching bit of what
      the first call does is set; and exactly what nothing rules out is. */
  method CallCall(aas: seq<Analysis>, args: Calls, c: Call, d: Call, ghost w: World) returns (r: ModRef)
    requires AllSound(aas, w) && Orderly(w, args)
    ensures CoversCall(r, w, c, d)
    ensures Unmarked(aas, c) && Unmarked(aas, d) ==>
      && (r.mod <==> !CallRuledOut(aas, args, c, d, true)) && (r.ref <==> !CallRuledOut(aas, args, c, d, false))
  {
    r := MeetCall(aas, c, d, w);
    if IsNone(r) { return; }
    var b1 := ChainBehaviour(aas, c, w);
    if b1 == Nothing {
      NothingRulesOut(aas, args, c, d, b1);
      return NoModRef;
    }
    var b2 := ChainBehaviour(aas, d, w);
    CallsExact(aas, args, c, d, r, b1, b2);
    r := RefineCalls(aas, args, c, d, b1, b2, r, w);
  }

  /** Refine by what each call does. */
  method RefineCalls(aas: seq<Analysis>, args: Calls, c: Call, d: Call, b1: Behaviour, b2: Behaviour, meet: ModRef,
                     ghost w: World)
    returns (r: ModRef)
    requires AllSound(aas, w) && Orderly(w, args) && CoversCall(meet, w, c, d) && b1 != Nothing
    requires CoversBehaviour(b1, w, c) && CoversBehaviour(b2, w, d)
    ensures CoversCall(r, w, c, d)
    ensures r.mod <==> CallLeft(aas, args, c, d, meet, b1, b2, true)
    ensures r.ref <==> CallLeft(aas, args, c, d, meet, b1, b2, false)
  {
    if b2 == Nothing { return NoModRef; }
    if OnlyReads(b1) && OnlyReads(b2) { return NoModRef; }
    r := meet;
    if OnlyReads(b1) {
      r := r.(mod := false);
    } else if DoesNotRead(b1) {
      r := r.(ref := false);
    }
    r := RefineByBoth(aas, args, c, d, b1, b2, r, w);
  }

  lemma CallsExact(aas: seq<Analysis>, args: Calls, c: Call, d: Call, m: ModRef, b1: Behaviour, b2: Behaviour)
    requires IsChained(aas, c, b1) && IsChained(aas, d, b2)
    requires (m.mod <==> !CallsRuledOut(aas, c, d, true)) && (m.ref <==> !CallsRuledOut(aas, c, d, false))
    ensures Unmarked(aas, c) && Unmarked(aas, d) ==>
      && (CallLeft(aas, args, c, d, m, b1, b2, true) <==> !CallRuledOut(aas, args, c, d, true))
      && (CallLeft(aas, args, c, d, m, b1, b2, false) <==> !CallRuledOut(aas, args, c, d, false))
  {
    if Unmarked(aas, c) && Unmarked(aas, d) {
      CallExact(aas, args, c, d, m, b1, b2, true);
      CallExact(aas, args, c, d, m, b1, b2, false);
    }
  }

  lemma NothingRulesOut(aas: seq<Analysis>, args: Calls, c: Call, d: Call, b: Behaviour)
    requires IsChained(aas, c, b) && b == Nothing
    ensures CallRuledOut(aas, args, c, d, true) && CallRuledOut(aas, args, c, d, false)
  {
  }

  /** A call that goes through nothing but its arguments: what is done to each of them. */
  method RefineByBoth(aas: seq<Analysis>, args: Calls, c: Call, d: Call, b1: Behaviour, b2: Behaviour, meet: ModRef,
                      ghost w: World)
    returns (r: ModRef)
    requires AllSound(aas, w) && Orderly(w, args) && CoversCall(meet, w, c, d)
    requires CoversBehaviour(b1, w, c) && CoversBehaviour(b2, w, d)
    ensures CoversCall(r, w, c, d)
    ensures r.mod <==> meet.mod && Left(aas, args, c, d, b1, b2, true)
    ensures r.ref <==> meet.ref && Left(aas, args, c, d, b1, b2, false)
  {
    r := meet;
    if OnlyArguments(b2) {
      r := NoModRef;
      if AccessesArguments(b2) {
        r := SecondThroughArguments(aas, args, c, d, meet, w);
      }
    } else if OnlyArguments(b1) {
      r := NoModRef;
      if AccessesArguments(b1) {
        r := FirstThroughArguments(aas, args, c, d, meet, w);
      }
    }
  }

  /** What the arguments leave possible. */
  ghost predicate Left(aas: seq<Analysis>, args: Calls, c: Call, d: Call, b1: Behaviour, b2: Behaviour, write: bool) {
    if OnlyArguments(b2) then AccessesArguments(b2) && AnySecond(aas, args, c, d, write)
    else OnlyArguments(b1) ==> AccessesArguments(b1) && AnyFirst(aas, args, c, d, write)
  }
}
