/**
 * The event values the sequencer moves around: raw MIDI bytes, OSC
 * messages with typed arguments, and the engine's internal commands,
 * together with their hand-written comparison operators, and patterns.
 */
module Events {

  newtype byte = x: int | 0 <= x < 0x100
  newtype int32 = x: int | -0x8000_0000 <= x < 0x8000_0000

  /** An OSC argument; the `float` alternative is not part of this model. */
  datatype OscArg = IntArg(i: int32) | StrArg(s: string) | BlobArg(blob: seq<byte>)

  /** The OSC type tag of an argument, which the writer emits and the reader reads it under. */
  function TagOf(a: OscArg): char
  {
    match a
    case IntArg(_) => 'i'
    case StrArg(_) => 's'
    case BlobArg(_) => 'b'
  }

  datatype Midi = Midi(datas: seq<byte>)
  datatype Osc = Osc(path: string, arguments: seq<OscArg>)
  datatype Internal = Tick | Play(pattern: string) | Resume | Stop(pattern: string) | End
  datatype Event = MidiEvent(midi: Midi) | OscEvent(osc: Osc) | InternalEvent(internal: Internal)

  // ---------------------------------------------------------------------
  // Lexicographic order (std::lexicographical_compare, used by `<` on
  // std::vector and std::string)

  /** `lt` is irreflexive, transitive and total. */
  ghost predicate StrictTotalOrder<T(!new)>(lt: (T, T) -> bool)
  {
    (forall x :: !lt(x, x))
    && (forall x, y, z :: lt(x, y) && lt(y, z) ==> lt(x, z))
    && (forall x, y :: x == y || lt(x, y) || lt(y, x))
  }

  /**
   * `a` comes before `b`: at the first position where one element is less
   * than the other, or `a` is a proper prefix of `b`.
   */
  function LexLess<T>(a: seq<T>, b: seq<T>, lt: (T, T) -> bool): bool
  {
    if |a| == 0 then |b| > 0
    else if |b| == 0 then false
    else if lt(a[0], b[0]) then true
    else if lt(b[0], a[0]) then false
    else LexLess(a[1..], b[1..], lt)
  }

  /** `a` is a proper prefix of `b`. */
  ghost predicate ProperPrefix<T>(a: seq<T>, b: seq<T>)
  {
    |a| < |b| && a == b[..|a|]
  }

  /** At some position both sequences have, they agree before it and `a`'s element is less. */
  ghost predicate FirstDifference<T>(a: seq<T>, b: seq<T>, lt: (T, T) -> bool)
  {
    exists k :: 0 <= k < |a| && k < |b| && a[..k] == b[..k] && lt(a[k], b[k])
  }

  /** `LexLess` holds exactly at a first difference or at a proper prefix. */
  lemma {:induction false} LexLessIff<T(!new)>(a: seq<T>, b: seq<T>, lt: (T, T) -> bool)
    requires StrictTotalOrder(lt)
    ensures LexLess(a, b, lt) <==> ProperPrefix(a, b) || FirstDifference(a, b, lt)
  {
    if |a| == 0 {
    } else if |b| == 0 {
    } else if lt(a[0], b[0]) {
      assert a[..0] == b[..0];
    } else if lt(b[0], a[0]) {
      NoDifferenceAfterGreater(a, b, lt);
    } else {
      assert a[0] == b[0];
      LexLessIff(a[1..], b[1..], lt);
      PrefixAfterEqual(a, b);
      DifferenceAfterEqual(a, b, lt);
    }
  }

  /** When `b` starts with a smaller element, `a` is neither a prefix of it nor less at a first difference. */
  lemma NoDifferenceAfterGreater<T(!new)>(a: seq<T>, b: seq<T>, lt: (T, T) -> bool)
    requires StrictTotalOrder(lt)
    requires |a| > 0 && |b| > 0 && lt(b[0], a[0])
    ensures !ProperPrefix(a, b) && !FirstDifference(a, b, lt)
  {
    assert a[0] != b[0] && !lt(a[0], b[0]);
    forall k | 0 < k <= |a| && k <= |b|
      ensures a[..k][0] == a[0] && b[..k][0] == b[0]
    {
    }
  }

  /** Equal first elements: `a` is a proper prefix of `b` exactly when the tails are. */
  lemma PrefixAfterEqual<T>(a: seq<T>, b: seq<T>)
    requires |a| > 0 && |b| > 0 && a[0] == b[0]
    ensures ProperPrefix(a, b) <==> ProperPrefix(a[1..], b[1..])
  {
    if ProperPrefix(a, b) {
      assert a[1..] == b[1..][..|a[1..]|];
    }
    if ProperPrefix(a[1..], b[1..]) {
      assert a == [a[0]] + a[1..] && b[..|a|] == [b[0]] + b[1..][..|a[1..]|];
    }
  }

  /** Equal first elements: the first difference, if any, lies in the tails. */
  lemma DifferenceAfterEqual<T(!new)>(a: seq<T>, b: seq<T>, lt: (T, T) -> bool)
    requires StrictTotalOrder(lt)
    requires |a| > 0 && |b| > 0 && a[0] == b[0]
    ensures FirstDifference(a, b, lt) <==> FirstDifference(a[1..], b[1..], lt)
  {
    if FirstDifference(a, b, lt) {
      DifferenceInTails(a, b, lt);
    }
    if FirstDifference(a[1..], b[1..], lt) {
      DifferenceFromTails(a, b, lt);
    }
  }

  lemma DifferenceInTails<T(!new)>(a: seq<T>, b: seq<T>, lt: (T, T) -> bool)
    requires StrictTotalOrder(lt)
    requires |a| > 0 && |b| > 0 && a[0] == b[0] && FirstDifference(a, b, lt)
    ensures FirstDifference(a[1..], b[1..], lt)
  {
    var k :| 0 <= k < |a| && k < |b| && a[..k] == b[..k] && lt(a[k], b[k]);
    assert k > 0;
    assert a[1..][..k - 1] == a[..k][1..] == b[..k][1..] == b[1..][..k - 1];
    assert lt(a[1..][k - 1], b[1..][k - 1]);
  }

  lemma DifferenceFromTails<T(!new)>(a: seq<T>, b: seq<T>, lt: (T, T) -> bool)
    requires |a| > 0 && |b| > 0 && a[0] == b[0] && FirstDifference(a[1..], b[1..], lt)
    ensures FirstDifference(a, b, lt)
  {
    var k :| 0 <= k < |a[1..]| && k < |b[1..]| && a[1..][..k] == b[1..][..k] && lt(a[1..][k], b[1..][k]);
    assert a[..k + 1] == [a[0]] + a[1..][..k] && b[..k + 1] == [b[0]] + b[1..][..k];
    assert lt(a[k + 1], b[k + 1]);
  }

  lemma {:induction false} LexLessIrreflexive<T(!new)>(a: seq<T>, lt: (T, T) -> bool)
    requires StrictTotalOrder(lt)
    ensures !LexLess(a, a, lt)
  {
    if |a| > 0 {
      LexLessIrreflexive(a[1..], lt);
    }
  }

  lemma {:induction false} LexLessTransitive<T(!new)>(a: seq<T>, b: seq<T>, c: seq<T>, lt: (T, T) -> bool)
    requires StrictTotalOrder(lt)
    requires LexLess(a, b, lt) && LexLess(b, c, lt)
    ensures LexLess(a, c, lt)
  {
    if |a| > 0 && |c| > 0 && !lt(a[0], c[0]) && !lt(c[0], a[0]) {
      assert a[0] == c[0];
      assert b[0] == a[0];
      LexLessTransitive(a[1..], b[1..], c[1..], lt);
    }
  }

  lemma {:induction false} LexLessTotal<T(!new)>(a: seq<T>, b: seq<T>, lt: (T, T) -> bool)
    requires StrictTotalOrder(lt)
    ensures a == b || LexLess(a, b, lt) || LexLess(b, a, lt)
  {
    if |a| > 0 && |b| > 0 && !lt(a[0], b[0]) && !lt(b[0], a[0]) {
      assert a[0] == b[0];
      LexLessTotal(a[1..], b[1..], lt);
      if a[1..] == b[1..] {
        assert a == [a[0]] + a[1..] && b == [b[0]] + b[1..];
      }
    }
  }

  /** The lexicographic order of a strict total order is a strict total order. */
  lemma LexOrder<T(!new)>(lt: (T, T) -> bool)
    requires StrictTotalOrder(lt)
    ensures StrictTotalOrder((a: seq<T>, b: seq<T>) => LexLess(a, b, lt))
  {
    forall a: seq<T> ensures !LexLess(a, a, lt) {
      LexLessIrreflexive(a, lt);
    }
    forall a: seq<T>, b: seq<T>, c: seq<T> | LexLess(a, b, lt) && LexLess(b, c, lt)
      ensures LexLess(a, c, lt)
    {
      LexLessTransitive(a, b, c, lt);
    }
    forall a: seq<T>, b: seq<T> ensures a == b || LexLess(a, b, lt) || LexLess(b, a, lt) {
      LexLessTotal(a, b, lt);
    }
  }

  function ByteLess(x: byte, y: byte): bool { x < y }

  /** `std::string`'s `<`: characters compared as unsigned codes. */
  function CharLess(x: char, y: char): bool { x < y }

  function StringLess(a: string, b: string): bool { LexLess(a, b, CharLess) }

  lemma ScalarOrders()
    ensures StrictTotalOrder(ByteLess) && StrictTotalOrder(CharLess)
  {
  }

  // ---------------------------------------------------------------------
  // midi

  /** midi `==`: equal byte vectors. */
  predicate MidiEq(a: Midi, b: Midi) { a.datas == b.datas }
  /** midi `!=`: different byte vectors. */
  predicate MidiNe(a: Midi, b: Midi) { a.datas != b.datas }
  /** midi `<`: the byte vectors' lexicographic order. */
  predicate MidiLess(a: Midi, b: Midi) { LexLess(a.datas, b.datas, ByteLess) }

  /** `==` is value equality, `!=` its negation, and `<` a strict total order. */
  lemma MidiOperators(a: Midi, b: Midi, c: Midi)
    ensures MidiEq(a, b) <==> a == b
    ensures MidiNe(a, b) <==> !MidiEq(a, b)
    ensures !MidiLess(a, a)
    ensures MidiLess(a, b) && MidiLess(b, c) ==> MidiLess(a, c)
    ensures MidiEq(a, b) || MidiLess(a, b) || MidiLess(b, a)
  {
    ScalarOrders();
    LexLessIrreflexive(a.datas, ByteLess);
    if MidiLess(a, b) && MidiLess(b, c) {
      LexLessTransitive(a.datas, b.datas, c.datas, ByteLess);
    }
    LexLessTotal(a.datas, b.datas, ByteLess);
  }

  // ---------------------------------------------------------------------
  // osc

  /** Position of an argument's alternative in `std::variant<int32_t, float, std::string, blob>`. */
  function ArgIndex(a: OscArg): nat
  {
    match a
    case IntArg(_) => 0
    case StrArg(_) => 2
    case BlobArg(_) => 3
  }

  /** `std::variant`'s `<`: by alternative first, then by value. */
  function ArgLess(a: OscArg, b: OscArg): bool
  {
    if ArgIndex(a) != ArgIndex(b) then ArgIndex(a) < ArgIndex(b)
    else match (a, b)
      case (IntArg(x), IntArg(y)) => x < y
      case (StrArg(x), StrArg(y)) => StringLess(x, y)
      case (BlobArg(x), BlobArg(y)) => LexLess(x, y, ByteLess)
      case _ => false
  }

  lemma ArgOrder()
    ensures StrictTotalOrder(ArgLess)
  {
    ScalarOrders();
    forall a: OscArg ensures !ArgLess(a, a) {
      match a
      case IntArg(_) =>
      case StrArg(x) => LexLessIrreflexive(x, CharLess);
      case BlobArg(x) => LexLessIrreflexive(x, ByteLess);
    }
    forall a: OscArg, b: OscArg, c: OscArg | ArgLess(a, b) && ArgLess(b, c) ensures ArgLess(a, c) {
      if ArgIndex(a) == ArgIndex(b) == ArgIndex(c) {
        match (a, b, c)
        case (IntArg(_), IntArg(_), IntArg(_)) =>
        case (StrArg(x), StrArg(y), StrArg(z)) => LexLessTransitive(x, y, z, CharLess);
        case (BlobArg(x), BlobArg(y), BlobArg(z)) => LexLessTransitive(x, y, z, ByteLess);
      }
    }
    forall a: OscArg, b: OscArg ensures a == b || ArgLess(a, b) || ArgLess(b, a) {
      if ArgIndex(a) == ArgIndex(b) {
        match (a, b)
        case (IntArg(_), IntArg(_)) =>
        case (StrArg(x), StrArg(y)) => LexLessTotal(x, y, CharLess);
        case (BlobArg(x), BlobArg(y)) => LexLessTotal(x, y, ByteLess);
      }
    }
  }

  function ArgsLess(a: seq<OscArg>, b: seq<OscArg>): bool { LexLess(a, b, ArgLess) }

  /** osc `==`: same path and same arguments. */
  predicate OscEq(a: Osc, b: Osc) { a.path == b.path && a.arguments == b.arguments }
  /** osc `!=`: a different path or different arguments. */
  predicate OscNe(a: Osc, b: Osc) { a.path != b.path || a.arguments != b.arguments }
  /** osc `<`: the path AND the arguments both less. */
  predicate OscLess(a: Osc, b: Osc) { StringLess(a.path, b.path) && ArgsLess(a.arguments, b.arguments) }

  /** `==` is value equality, `!=` its negation, and `<` irreflexive and transitive. */
  lemma OscOperators(a: Osc, b: Osc, c: Osc)
    ensures OscEq(a, b) <==> a == b
    ensures OscNe(a, b) <==> !OscEq(a, b)
    ensures !OscLess(a, a)
    ensures OscLess(a, b) && OscLess(b, c) ==> OscLess(a, c)
  {
    ScalarOrders();
    ArgOrder();
    LexLessIrreflexive(a.path, CharLess);
    if OscLess(a, b) && OscLess(b, c) {
      LexLessTransitive(a.path, b.path, c.path, CharLess);
      LexLessTransitive(a.arguments, b.arguments, c.arguments, ArgLess);
    }
  }

  /**
   * osc `<` is not lexicographic on (path, arguments): `/a (1)` and
   * `/b (0)` differ, yet neither is less than the other, while a
   * lexicographic order would put `/a` first.
   */
  lemma OscLessNotTotal()
    ensures var a, b := Osc("/a", [IntArg(1)]), Osc("/b", [IntArg(0)]);
      !OscEq(a, b) && !OscLess(a, b) && !OscLess(b, a) && StringLess(a.path, b.path)
  {
    var a, b := Osc("/a", [IntArg(1)]), Osc("/b", [IntArg(0)]);
    assert !ArgsLess(a.arguments, b.arguments) by {
      assert ArgLess(b.arguments[0], a.arguments[0]);
    }
    assert StringLess(a.path, b.path) by {
      assert a.path[0] == b.path[0];
      assert a.path[1..] == "a" && b.path[1..] == "b";
      assert CharLess('a', 'b');
    }
  }

  // ---------------------------------------------------------------------
  // internal

  /** Position of an internal event's alternative in its variant. */
  function InternalIndex(e: Internal): nat
  {
    match e
    case Tick => 0
    case Play(_) => 1
    case Resume => 2
    case Stop(_) => 3
    case End => 4
  }

  /** Alternative equality: `tick`, `resume`, `end` always equal; `play`, `stop` by pattern name. */
  predicate InternalEq(a: Internal, b: Internal)
  {
    InternalIndex(a) == InternalIndex(b) &&
    match (a, b)
    case (Play(x), Play(y)) => x == y
    case (Stop(x), Stop(y)) => x == y
    case _ => true
  }

  /** Alternative inequality: `tick`, `resume`, `end` never differ; `play`, `stop` by pattern name. */
  predicate InternalNe(a: Internal, b: Internal)
  {
    InternalIndex(a) != InternalIndex(b) ||
    match (a, b)
    case (Play(x), Play(y)) => x != y
    case (Stop(x), Stop(y)) => x != y
    case _ => false
  }

  /** By alternative; `tick`, `resume`, `end` are never less; `play`, `stop` ordered by pattern name. */
  predicate InternalLess(a: Internal, b: Internal)
  {
    if InternalIndex(a) != InternalIndex(b) then InternalIndex(a) < InternalIndex(b)
    else match (a, b)
      case (Play(x), Play(y)) => StringLess(x, y)
      case (Stop(x), Stop(y)) => StringLess(x, y)
      case _ => false
  }

  /** The internal operators are value equality, its negation and a strict total order. */
  lemma InternalOperators(a: Internal, b: Internal, c: Internal)
    ensures InternalEq(a, b) <==> a == b
    ensures InternalNe(a, b) <==> !InternalEq(a, b)
    ensures !InternalLess(a, a)
    ensures InternalLess(a, b) && InternalLess(b, c) ==> InternalLess(a, c)
    ensures a == b || InternalLess(a, b) || InternalLess(b, a)
  {
    ScalarOrders();
    match a {
      case Play(x) => LexLessIrreflexive(x, CharLess);
      case Stop(x) => LexLessIrreflexive(x, CharLess);
      case _ =>
    }
    if InternalLess(a, b) && InternalLess(b, c) && InternalIndex(a) == InternalIndex(c) {
      match (a, b, c)
      case (Play(x), Play(y), Play(z)) => LexLessTransitive(x, y, z, CharLess);
      case (Stop(x), Stop(y), Stop(z)) => LexLessTransitive(x, y, z, CharLess);
    }
    if InternalIndex(a) == InternalIndex(b) {
      match (a, b)
      case (Play(x), Play(y)) => LexLessTotal(x, y, CharLess);
      case (Stop(x), Stop(y)) => LexLessTotal(x, y, CharLess);
      case _ =>
    }
  }

  /** The unit events agree with each other and are never ordered. */
  lemma UnitEvents(a: Internal, b: Internal)
    requires a in {Tick, Resume, End} && a == b
    ensures InternalEq(a, b) && !InternalNe(a, b) && !InternalLess(a, b)
  {
  }

  /** `event::any`'s `==`: same alternative and equal values. */
  predicate EventEq(a: Event, b: Event)
  {
    match (a, b)
    case (MidiEvent(x), MidiEvent(y)) => MidiEq(x, y)
    case (OscEvent(x), OscEvent(y)) => OscEq(x, y)
    case (InternalEvent(x), InternalEvent(y)) => InternalEq(x, y)
    case _ => false
  }

  lemma EventEqIsEquality(a: Event, b: Event)
    ensures EventEq(a, b) <==> a == b
  {
    match (a, b)
    case (MidiEvent(x), MidiEvent(y)) => MidiOperators(x, y, y);
    case (OscEvent(x), OscEvent(y)) => OscOperators(x, y, y);
    case (InternalEvent(x), InternalEvent(y)) => InternalOperators(x, y, y);
    case _ =>
  }

  // ---------------------------------------------------------------------
  // patterns

  /**
   * `timestamp::end()`: the largest finite `float`, (2 - 2^-23) * 2^127.
   * Engine timestamps are whole tick counts in this model.
   */
  const EndTime: int := 340282346638528859811704183484516925440

  lemma EndTimeIsMaxFloat()
    ensures EndTime == 0xff_ffff * 0x100_0000_0000_0000_0000_0000_0000
  {
  }

  /** A pattern's events as the ordered multimap keeps them, by time. */
  datatype Pattern = Pattern(name: string, events: seq<(int, Event)>)

  ghost predicate TimeOrdered(events: seq<(int, Event)>)
  {
    forall i, j :: 0 <= i < j < |events| ==> events[i].0 <= events[j].0
  }

  /** A fresh pattern holds one event only: `end`, at the end of time. */
  function NewPattern(name: string): (p: Pattern)
    ensures p.name == name && TimeOrdered(p.events)
    ensures forall k :: 0 <= k < |p.events| ==> p.events[k] == (EndTime, InternalEvent(End))
    ensures |p.events| == 1
  {
    Pattern(name, [(EndTime, InternalEvent(End))])
  }
}
