/**
 * The pattern engine: a registry of patterns (a list whose nodes are
 * referred to by iterator), a table from pattern names to those nodes,
 * and the players of the active patterns, each with its own time.
 */
module Engines {
  import opened Events

  /** A node of the pattern list; its identity is what an iterator designates. */
  class PatternEntry {
    const pattern: Pattern

    constructor(p: Pattern)
      ensures pattern == p
    {
      pattern := p;
    }
  }

  /** An active pattern: the time reached in it and the list node it plays. */
  datatype Player = Player(t: int, entry: PatternEntry)

  // the player's window of events

  /** `lower_bound(t)`: the number of leading events strictly before `t`. */
  function LowerBound(events: seq<(int, Event)>, t: int): (k: nat)
    ensures k <= |events|
    ensures forall i :: 0 <= i < k ==> events[i].0 < t
    ensures k < |events| ==> events[k].0 >= t
  {
    if events == [] || events[0].0 >= t then 0 else 1 + LowerBound(events[1..], t)
  }

  /** `upper_bound(end)`: the number of leading events at or before `end`. */
  function UpperBound(events: seq<(int, Event)>, end: int): (k: nat)
    ensures k <= |events|
    ensures forall i :: 0 <= i < k ==> events[i].0 <= end
    ensures k < |events| ==> events[k].0 > end
  {
    if events == [] || events[0].0 > end then 0 else 1 + UpperBound(events[1..], end)
  }

  /** The player's call: the positions of `lower_bound(t)` and `upper_bound(end)` in its pattern. */
  function Window(pl: Player, end: int): (int, int)
  {
    (LowerBound(pl.entry.pattern.events, pl.t), UpperBound(pl.entry.pattern.events, end))
  }

  /** In a time-ordered pattern the window holds exactly the events timed from `t` to `end`. */
  lemma WindowContents(events: seq<(int, Event)>, t: int, end: int, i: int)
    requires TimeOrdered(events) && 0 <= i < |events|
    ensures LowerBound(events, t) <= i < UpperBound(events, end) <==> t <= events[i].0 <= end
  {
    var lo, hi := LowerBound(events, t), UpperBound(events, end);
    if lo <= i {
      assert lo < |events| && events[lo].0 <= events[i].0;
    }
    if i >= hi && hi < |events| {
      assert events[hi].0 <= events[i].0;
    }
  }

  // the consistency of the registry

  /** The entries of the list are distinct nodes. */
  ghost predicate Distinct(reg: seq<PatternEntry>)
  {
    forall i, j :: 0 <= i < j < |reg| ==> reg[i] != reg[j]
  }

  /**
   * The table's keys are exactly the names of the listed patterns, each
   * mapped to its own node, and every player plays the node its name
   * designates. Every listed pattern is in time order, as a multimap
   * keyed by timestamp always is.
   */
  ghost predicate Consistent(reg: seq<PatternEntry>, table: map<string, PatternEntry>, active: map<string, Player>)
  {
    Distinct(reg)
    && (forall e :: e in reg ==> TimeOrdered(e.pattern.events))
    && (forall e :: e in reg ==> e.pattern.name in table && table[e.pattern.name] == e)
    && (forall n :: n in table ==> table[n] in reg && table[n].pattern.name == n)
    && (forall n :: n in active ==> n in table && active[n].entry == table[n])
  }

  /** In a consistent registry, no two listed patterns share a name. */
  lemma NamesUnique(reg: seq<PatternEntry>, table: map<string, PatternEntry>, active: map<string, Player>, i: int, j: int)
    requires Consistent(reg, table, active)
    requires 0 <= i < |reg| && 0 <= j < |reg| && i != j
    ensures reg[i].pattern.name != reg[j].pattern.name
  {
    assert reg[i] in reg && reg[j] in reg;
    if i < j {
      assert reg[i] != reg[j];
    } else {
      assert reg[j] != reg[i];
    }
  }

  /** The window of every player of a consistent registry holds exactly its pattern's events timed from its `t` to `end`. */
  lemma ActiveWindow(reg: seq<PatternEntry>, table: map<string, PatternEntry>, active: map<string, Player>,
                     n: string, end: int, i: int)
    requires Consistent(reg, table, active) && n in active
    requires 0 <= i < |active[n].entry.pattern.events|
    ensures var pl := active[n]; var w := Window(pl, end);
      w.0 <= i < w.1 <==> pl.t <= pl.entry.pattern.events[i].0 <= end
  {
    var pl := active[n];
    assert pl.entry == table[n] && table[n] in reg;
    WindowContents(pl.entry.pattern.events, pl.t, end, i);
  }

  /** Adding a new node for a new name, at the front, keeps the registry consistent. */
  lemma AddKeepsConsistent(reg: seq<PatternEntry>, table: map<string, PatternEntry>, active: map<string, Player>, e: PatternEntry)
    requires Consistent(reg, table, active)
    requires e !in reg && e.pattern.name !in table && TimeOrdered(e.pattern.events)
    ensures Consistent([e] + reg, table[e.pattern.name := e], active)
  {
    var r := [e] + reg;
    forall i, j | 0 <= i < j < |r|
      ensures r[i] != r[j]
    {
      if i == 0 {
        assert r[j] == reg[j - 1];
      } else {
        assert r[i] == reg[i - 1] && r[j] == reg[j - 1];
      }
    }
  }

  /** The list with node `e` erased, the others in their order. */
  function Erase(s: seq<PatternEntry>, e: PatternEntry): (r: seq<PatternEntry>)
    ensures forall k :: 0 <= k < |r| ==> r[k] in s && r[k] != e
    ensures forall k :: 0 <= k < |s| && s[k] != e ==> s[k] in r
    ensures |r| <= |s|
  {
    if s == [] then []
    else if s[0] == e then Erase(s[1..], e)
    else [s[0]] + Erase(s[1..], e)
  }

  /** Erasing a node that occurs once, at `i`, cuts exactly position `i` out of the list. */
  lemma {:induction false} EraseAt(s: seq<PatternEntry>, i: int)
    requires Distinct(s) && 0 <= i < |s|
    ensures Erase(s, s[i]) == s[..i] + s[i + 1..]
  {
    if i == 0 {
      EraseAbsent(s[1..], s[0]);
    } else {
      assert s[0] != s[i];
      DistinctTail(s);
      EraseAt(s[1..], i - 1);
      assert s[1..][i - 1] == s[i];
      CutAfterHead(s, i);
    }
  }

  lemma DistinctTail(s: seq<PatternEntry>)
    requires Distinct(s) && s != []
    ensures Distinct(s[1..])
  {
    forall a, b | 0 <= a < b < |s[1..]|
      ensures s[1..][a] != s[1..][b]
    {
      assert s[1..][a] == s[a + 1] && s[1..][b] == s[b + 1];
    }
  }

  lemma CutAfterHead<T>(s: seq<T>, i: int)
    requires 0 < i < |s|
    ensures [s[0]] + (s[1..][..i - 1] + s[1..][i..]) == s[..i] + s[i + 1..]
  {
    assert s[..i] == [s[0]] + s[1..][..i - 1];
    assert s[i + 1..] == s[1..][i..];
  }

  /** Erasing a node that does not occur changes nothing. */
  lemma {:induction false} EraseAbsent(s: seq<PatternEntry>, e: PatternEntry)
    requires e !in s
    ensures Erase(s, e) == s
  {
    if s != [] {
      assert s[0] != e && e !in s[1..];
      EraseAbsent(s[1..], e);
      assert [s[0]] + s[1..] == s;
    }
  }

  lemma {:induction false} EraseKeepsDistinct(s: seq<PatternEntry>, e: PatternEntry)
    requires Distinct(s)
    ensures Distinct(Erase(s, e))
  {
    if s != [] {
      DistinctTail(s);
      EraseKeepsDistinct(s[1..], e);
      if s[0] != e {
        var r := Erase(s[1..], e);
        assert s[0] !in r by {
          forall k | 0 <= k < |s[1..]|
            ensures s[1..][k] != s[0]
          {
            assert s[1..][k] == s[k + 1];
          }
        }
        forall a, b | 0 <= a < b < |[s[0]] + r|
          ensures ([s[0]] + r)[a] != ([s[0]] + r)[b]
        {
          if a == 0 {
            assert ([s[0]] + r)[b] == r[b - 1];
            assert r[b - 1] in r;
          } else {
            assert ([s[0]] + r)[a] == r[a - 1] && ([s[0]] + r)[b] == r[b - 1];
          }
        }
      }
    }
  }

  /** Removing a listed name from the table, the players and the list keeps the registry consistent. */
  lemma RemoveKeepsConsistent(reg: seq<PatternEntry>, table: map<string, PatternEntry>, active: map<string, Player>, name: string)
    requires Consistent(reg, table, active) && name in table
    ensures Consistent(Erase(reg, table[name]), table - {name}, active - {name})
  {
    var e := table[name];
    EraseKeepsDistinct(reg, e);
    forall n | n in table - {name}
      ensures table[n] != e
    {
      assert table[n].pattern.name == n != name == e.pattern.name;
    }
  }

  /** The node a name designates sits at one position of the list, and erasing it cuts out that position only. */
  lemma ErasedPosition(reg: seq<PatternEntry>, table: map<string, PatternEntry>, active: map<string, Player>, name: string)
    returns (i: int)
    requires Consistent(reg, table, active) && name in table
    ensures 0 <= i < |reg| && reg[i] == table[name] && reg[i].pattern.name == name
    ensures Erase(reg, table[name]) == reg[..i] + reg[i + 1..]
  {
    i :| 0 <= i < |reg| && reg[i] == table[name];
    EraseAt(reg, i);
  }

  /** Every player one tick further, nothing else changed. */
  function Advanced(active: map<string, Player>): (r: map<string, Player>)
    ensures r.Keys == active.Keys
    ensures forall n :: n in r ==> r[n].t == active[n].t + 1 && r[n].entry == active[n].entry
  {
    map n | n in active :: active[n].(t := active[n].t + 1)
  }

  /** The loop of the `tick` handler: each player, in any order, one tick further. */
  method AdvancePlayers(players: map<string, Player>) returns (r: map<string, Player>)
    ensures r == Advanced(players)
  {
    r := players;
    var todo := players.Keys;
    while todo != {}
      invariant todo <= players.Keys && r.Keys == players.Keys
      invariant forall n :: n in r ==> r[n] == if n in todo then players[n] else players[n].(t := players[n].t + 1)
      decreases |todo|
    {
      var n :| n in todo;
      r := r[n := r[n].(t := r[n].t + 1)];
      todo := todo - {n};
    }
    forall n | n in r
      ensures r[n] == Advanced(players)[n]
    {
    }
  }

  /** A tick moves players only, so the registry stays consistent. */
  lemma AdvanceKeepsConsistent(reg: seq<PatternEntry>, table: map<string, PatternEntry>, active: map<string, Player>)
    requires Consistent(reg, table, active)
    ensures Consistent(reg, table, Advanced(active))
  {
  }

  /** Why a request was refused: the two `runtime_error`s. */
  datatype EngineError = DuplicatedKey(name: string) | InvalidPatternKey(name: string)

  datatype Status = Done | Refused(error: EngineError)

  class Engine {
    var reg: seq<PatternEntry>
    var table: map<string, PatternEntry>
    var active: map<string, Player>
    var currentTime: int

    ghost predicate Valid()
      reads this
    {
      Consistent(reg, table, active)
    }

    /** An empty registry; the start time is whatever the uninitialised clock holds. */
    constructor(start: int)
      ensures Valid()
      ensures reg == [] && table == map[] && active == map[] && currentTime == start
    {
      reg, table, active, currentTime := [], map[], map[], start;
    }

    /**
     * `add_pattern`: a name already in the table is refused and nothing
     * changes; otherwise a new node is put at the front of the list and
     * the table maps the name to it.
     */
    method AddPattern(p: Pattern) returns (s: Status)
      requires Valid() && TimeOrdered(p.events)
      modifies this
      ensures Valid()
      ensures p.name in old(table) ==> s == Refused(DuplicatedKey(p.name)) && unchanged(this)
      ensures p.name !in old(table) ==>
        s == Done && |reg| == |old(reg)| + 1 && fresh(reg[0]) && reg[0].pattern == p
        && reg[1..] == old(reg) && table == old(table)[p.name := reg[0]]
        && active == old(active) && currentTime == old(currentTime)
    {
      if p.name in table {
        return Refused(DuplicatedKey(p.name));
      }
      var e := new PatternEntry(p);
      AddKeepsConsistent(reg, table, active, e);
      reg := [e] + reg;
      table := table[p.name := e];
      s := Done;
    }

    /**
     * `remove_pattern`: an unknown name is ignored; otherwise its player,
     * its list node and its table entry are removed.
     */
    method RemovePattern(name: string)
      requires Valid()
      modifies this
      ensures Valid()
      ensures name !in old(table) ==> unchanged(this)
      ensures name in old(table) ==>
        active == old(active) - {name} && table == old(table) - {name}
        && reg == Erase(old(reg), old(table)[name]) && currentTime == old(currentTime)
    {
      if name !in table {
        return;
      }
      var e := table[name];
      RemoveKeepsConsistent(reg, table, active, name);
      active := active - {name};
      reg := Erase(reg, e);
      table := table - {name};
    }

    /** The `tick` handler: the engine's clock and every player's time move one tick on. */
    method Tick()
      requires Valid()
      modifies this
      ensures Valid()
      ensures currentTime == old(currentTime) + 1 && active == Advanced(old(active))
      ensures reg == old(reg) && table == old(table)
    {
      currentTime := currentTime + 1;
      AdvanceKeepsConsistent(reg, table, active);
      active := AdvancePlayers(active);
    }

    /** The `play` handler: an unknown pattern name is refused; the registration of the player is not made. */
    method Play(name: string) returns (s: Status)
      requires Valid()
      ensures s == if name in table then Done else Refused(InvalidPatternKey(name))
    {
      if name !in table {
        return Refused(InvalidPatternKey(name));
      }
      return Done;
    }

    /**
     * The internal-event visitor: each kind goes to its handler; `resume`
     * and `stop` do nothing. There is no handler for `end`, which converts
     * back to the variant and is visited again without end.
     */
    method Handle(e: Internal) returns (s: Status)
      requires Valid() && !e.End?
      modifies this
      ensures Valid()
      ensures e.Play? ==> s == (if e.pattern in old(table) then Done else Refused(InvalidPatternKey(e.pattern)))
      ensures !e.Play? ==> s == Done
      ensures e.Tick? ==> currentTime == old(currentTime) + 1 && active == Advanced(old(active))
      ensures !e.Tick? ==> unchanged(this)
      ensures reg == old(reg) && table == old(table)
    {
      match e
      case Tick =>
        Tick();
        s := Done;
      case Play(name) =>
        s := Play(name);
      case Resume =>
        s := Done;
      case Stop(_) =>
        s := Done;
    }
  }
}
