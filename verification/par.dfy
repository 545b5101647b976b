/**
 * The par estimate: guests linked by aversions are collected into chains, each chain is split greedily
 * into two virtual tables, and the moves needed are estimated from how many guests sit at the "wrong"
 * real table, plus one move per guest whose neighbour-scoped aversion is already triggered.
 */
module Par {
  import opened Wrappers
  import opened Seqs
  import opened Phobias
  import opened Types
  import opened Checks

  /** `TableSplit`: the two virtual tables of one chain. */
  datatype TableSplit = TableSplit(t0: seq<Person>, t1: seq<Person>)

  /** `t` and `person` cannot share a virtual table: one is of the type the other fears. */
  predicate Conflicts(t: Person, person: Person) {
    Some(t.name) == person.phobia || t.phobia == Some(person.name)
  }

  lemma ConflictsSymmetric(a: Person, b: Person)
    ensures Conflicts(a, b) == Conflicts(b, a)
  {
  }

  /** `canAddToTable`: nobody at the table conflicts with the person. */
  predicate CanAddToTable(table: seq<Person>, person: Person) {
    forall t :: t in table ==> !Conflicts(t, person)
  }

  /** No two guests of the table conflict. */
  predicate ConflictFree(table: seq<Person>) {
    forall i, j :: 0 <= i < j < |table| ==> !Conflicts(table[i], table[j])
  }

  /** Adding a guest that passes `canAddToTable` keeps a table free of conflicts. */
  lemma AddKeepsConflictFree(table: seq<Person>, person: Person)
    requires ConflictFree(table) && CanAddToTable(table, person)
    ensures ConflictFree(PushCellIfNotInList(person, table))
  {
    var r := PushCellIfNotInList(person, table);
    if r != table {
      forall i, j | 0 <= i < j < |r|
        ensures !Conflicts(r[i], r[j])
      {
        if j == |table| {
          assert r[i] in table;
        } else {
          assert r[i] == table[i] && r[j] == table[j];
        }
      }
    }
  }

  /** `personsWithBigFear`: the guests that have an aversion. */
  function WithBigFear(placed: seq<Person>): (r: seq<Person>)
    ensures forall p :: p in r <==> p in placed && p.phobia.Some?
    ensures |r| <= |placed| && multiset(r) <= multiset(placed)
    ensures (forall p :: p in placed ==> p.phobia.None?) ==> r == []
  {
    var hasBigFear := (p: Person) => p.phobia.Some?;
    FilterMultiset(placed, hasBigFear);
    if forall p :: p in placed ==> p.phobia.None? then
      FilterNone(placed, hasBigFear);
      Filter(placed, hasBigFear)
    else
      Filter(placed, hasBigFear)
  }

  /** `personsThatTriggerBigFear`: the guests of a type some guest fears. */
  function Triggering(placed: seq<Person>): (r: seq<Person>)
    ensures forall p :: p in r <==> p in placed && exists t :: t in placed && t.phobia == Some(p.name)
    ensures |r| <= |placed| && multiset(r) <= multiset(placed)
    ensures (forall p :: p in placed ==> p.phobia.None?) ==> r == []
  {
    var withBigFear := WithBigFear(placed);
    var triggers := (p: Person) => exists t :: t in withBigFear && t.phobia == Some(p.name);
    FilterMultiset(placed, triggers);
    if forall p :: p in placed ==> p.phobia.None? then
      FilterNone(placed, triggers);
      Filter(placed, triggers)
    else
      Filter(placed, triggers)
  }

  /** `personsWithRelevantBigFear`: the guests whose feared type is on the board. */
  function RelevantBigFear(placed: seq<Person>): (r: seq<Person>)
    ensures forall p :: p in r <==> p in placed && exists t :: t in placed && Some(t.name) == p.phobia
    ensures |r| <= |placed| && multiset(r) <= multiset(placed)
    ensures (forall p :: p in placed ==> p.phobia.None?) ==> r == []
  {
    var triggering := Triggering(placed);
    var relevant := (p: Person) => exists t :: t in triggering && Some(t.name) == p.phobia;
    var r := Filter(WithBigFear(placed), relevant);
    FilterMultiset(WithBigFear(placed), relevant);
    assert forall p :: p in placed && (exists t :: t in placed && Some(t.name) == p.phobia) ==> p in r by {
      forall p | p in placed && exists t :: t in placed && Some(t.name) == p.phobia
        ensures p in r
      {
        var t :| t in placed && Some(t.name) == p.phobia;
        assert t in triggering;
      }
    }
    r
  }

  /**
   * The guests the chains start from (`personsWithRelevantBigFear` followed by `personsThatTriggerBigFear`):
   * a placed guest is involved exactly when it conflicts with some placed guest.
   */
  function InvolvedPersons(placed: seq<Person>): (r: seq<Person>)
    ensures forall p :: p in r <==> p in placed && exists t :: t in placed && Conflicts(t, p)
    ensures |r| <= 2 * |placed|
    ensures (forall p :: p in placed ==> p.phobia.None?) ==> r == []
  {
    RelevantBigFear(placed) + Triggering(placed)
  }

  /** Some chain holds a guest on the position. */
  predicate InSomeChain(chains: seq<TableSplit>, pos: CellPosition) {
    exists i :: 0 <= i < |chains| && (HasPerson(chains[i].t0, pos) || HasPerson(chains[i].t1, pos))
  }

  /** Total number of entries of all virtual tables. */
  function TotalSize(chains: seq<TableSplit>): nat {
    if chains == [] then 0 else TotalSize(chains[..|chains| - 1]) + |chains[|chains| - 1].t0| + |chains[|chains| - 1].t1|
  }

  /** The greedy rule: a guest only ends up at virtual table 1 when somebody at table 0 conflicts with it. */
  predicate Greedy(c: TableSplit) {
    forall q :: q in c.t1 ==> !CanAddToTable(c.t0, q)
  }

  /**
   * A chain as the splitting loop leaves it: guests from `all`, table 0 free of conflicts, every guest at
   * table 1 in conflict with somebody at table 0, no position twice at one table.
   */
  predicate ChainOk(all: seq<Person>, c: TableSplit) {
    (forall q :: q in c.t0 ==> q in all) && (forall q :: q in c.t1 ==> q in all)
    && ConflictFree(c.t0) && Greedy(c) && DistinctPositions(c.t0) && DistinctPositions(c.t1)
  }

  /** The finished chains are well formed and each is seeded at table 0. */
  predicate ChainsReady(all: seq<Person>, chains: seq<TableSplit>) {
    forall i :: 0 <= i < |chains| ==> ChainOk(all, chains[i]) && |chains[i].t0| > 0
  }

  /** The guests at both virtual tables of a chain. */
  function Members(c: TableSplit): seq<Person> {
    c.t0 + c.t1
  }

  /** No guest of `a` conflicts with a guest of `b`. */
  predicate Apart(a: seq<Person>, b: seq<Person>) {
    forall p, q :: p in a && q in b ==> !Conflicts(p, q)
  }

  /** Different chains never conflict: every conflict between involved guests stays inside one chain. */
  predicate ChainsApart(chains: seq<TableSplit>) {
    forall i, j :: 0 <= i < |chains| && 0 <= j < |chains| && i != j ==> Apart(Members(chains[i]), Members(chains[j]))
  }

  /**
   * The guarantees of `getChainsAndSplitToTables` for the involved guests `all`: well-formed chains, each
   * seeded at table 0, that account for every involved position, hold no more entries than `all`, and do
   * not conflict with one another.
   */
  predicate ChainsOf(all: seq<Person>, chains: seq<TableSplit>) {
    ChainsReady(all, chains)
    && (forall p :: p in all ==> InSomeChain(chains, p.Pos()))
    && TotalSize(chains) <= |all|
    && ChainsApart(chains)
  }

  /** The guest listed at `k` conflicts with a guest listed before it. */
  predicate ReachedAt(order: seq<Person>, k: nat)
    requires k < |order|
  {
    exists j :: 0 <= j < k && Conflicts(order[j], order[k])
  }

  /** Each guest of `order` after the first conflicts with a guest listed before it. */
  predicate Linked(order: seq<Person>) {
    forall k :: 0 < k < |order| ==> ReachedAt(order, k)
  }

  /** `a` and `b` hold the same guests. */
  predicate SameGuests(a: seq<Person>, b: seq<Person>) {
    (forall p :: p in a ==> p in b) && (forall p :: p in b ==> p in a)
  }

  /**
   * The chain is one connected group: its guests can be listed, starting from its seed (the first guest of
   * virtual table 0), so that each conflicts with a guest listed before it.
   */
  ghost predicate Connected(c: TableSplit) {
    |c.t0| > 0 && exists order :: Linked(order) && |order| > 0 && order[0] == c.t0[0] && SameGuests(order, Members(c))
  }

  /** Every guest of `s` is one of the involved guests `all`. */
  predicate Within(all: seq<Person>, s: seq<Person>) {
    forall p :: p in s ==> p in all
  }

  /** Every involved position is still waiting, related, in the growing chain, or in a finished chain. */
  predicate Accounted(all: seq<Person>, chains: seq<TableSplit>, chain: TableSplit, related: seq<Person>, involved: seq<Person>) {
    forall p :: p in all ==>
      HasPerson(involved, p.Pos()) || HasPerson(related, p.Pos())
      || HasPerson(chain.t0, p.Pos()) || HasPerson(chain.t1, p.Pos()) || InSomeChain(chains, p.Pos())
  }

  /** Everything the inner loop keeps while one chain grows. */
  predicate InnerState(all: seq<Person>, chains: seq<TableSplit>, chain: TableSplit, related: seq<Person>, involved: seq<Person>) {
    ChainsReady(all, chains)
    && ChainOk(all, chain) && (|chain.t0| > 0 || |related| > 0)
    && Within(all, involved) && Within(all, related)
    && TotalSize(chains) + |chain.t0| + |chain.t1| + |related| + |involved| <= |all|
    && Accounted(all, chains, chain, related, involved)
  }

  /** Everything the outer loop keeps: the finished chains are well formed and every involved position waits or is in one. */
  predicate OuterState(all: seq<Person>, chains: seq<TableSplit>, involved: seq<Person>) {
    ChainsReady(all, chains) && Within(all, involved) && TotalSize(chains) + |involved| <= |all|
    && forall p :: p in all ==> HasPerson(involved, p.Pos()) || InSomeChain(chains, p.Pos())
  }

  /** `involvedPersons.filter(p => p.name === current.phobia || p.phobia === current.name)` */
  function Matches(involved: seq<Person>, current: Person): (r: seq<Person>)
    ensures forall p :: p in r <==> p in involved && Conflicts(p, current)
  {
    Filter(involved, (p: Person) => Conflicts(p, current))
  }

  /** `involvedPersons.filter(p => !relatedPersons.some(t => isSameCell(t, p)))` */
  function Remaining(involved: seq<Person>, related: seq<Person>): (r: seq<Person>)
    ensures forall p :: p in r <==> p in involved && !HasPerson(related, p.Pos())
  {
    Filter(involved, (p: Person) => !HasPerson(related, p.Pos()))
  }

  /** The guest goes to virtual table 0 when nobody there conflicts with it, otherwise to table 1. */
  function Place(chain: TableSplit, current: Person): TableSplit {
    if CanAddToTable(chain.t0, current) then chain.(t0 := PushCellIfNotInList(current, chain.t0))
    else chain.(t1 := PushCellIfNotInList(current, chain.t1))
  }

  /**
   * The inner loop of `getChainsAndSplitToTables`, as a recursion: the last related guest is placed, and every
   * remaining involved guest in conflict with it moves from the involved list to the related list, until no
   * related guest is left. Gives the finished chain and the involved guests left over, which are fewer.
   */
  function GrowFrom(chain: TableSplit, related: seq<Person>, involved: seq<Person>): (r: (TableSplit, seq<Person>))
    ensures |r.1| <= |involved| && Within(involved, r.1)
    decreases 2 * |involved| + |related|
  {
    if related == [] then (chain, involved)
    else
      var current := related[|related| - 1];
      var matches := Matches(involved, current);
      StepShrinks(involved, related[..|related| - 1], current, matches);
      GrowFrom(Place(chain, current), related[..|related| - 1] + matches, Remaining(involved, related[..|related| - 1] + matches))
  }

  /** The outer loop of `getChainsAndSplitToTables`, as a recursion: each chain grows from the last involved guest. */
  function SplitFrom(chains: seq<TableSplit>, involved: seq<Person>): seq<TableSplit>
    decreases |involved|
  {
    if involved == [] then chains
    else
      var grown := GrowFrom(TableSplit([], []), [involved[|involved| - 1]], involved[..|involved| - 1]);
      SplitFrom(chains + [grown.0], grown.1)
  }

  /** The chains `getChainsAndSplitToTables` builds from the involved guests `all`. */
  function SplitChains(all: seq<Person>): seq<TableSplit> {
    SplitFrom([], all)
  }

  /**
   * `getChainsAndSplitToTables`: while involved guests remain, start a chain from the last one and keep
   * pulling in every remaining guest in conflict with the guest just placed; a guest goes to virtual table 0
   * when nobody there conflicts with it, otherwise to table 1, and never twice on one position.
   * The result is the recursion `SplitChains` of the involved guests: well-formed chains that cover every involved
   * guest and never conflict with one another and, on a board with one guest per cell, each connected.
   */
  method GetChainsAndSplitToTables(placed: seq<Person>) returns (chains: seq<TableSplit>)
    ensures chains == SplitChains(InvolvedPersons(placed))
    ensures ChainsOf(InvolvedPersons(placed), chains)
    ensures DistinctPositions(placed) ==> forall i :: 0 <= i < |chains| ==> Connected(chains[i])
  {
    var involved := InvolvedPersons(placed);
    ghost var all := involved;
    chains := [];
    while |involved| > 0
      invariant SplitFrom(chains, involved) == SplitChains(all)
      decreases |involved|
    {
      var seed := involved[|involved| - 1];
      var chain;
      chain, involved := GrowChain(seed, involved[..|involved| - 1]);
      chains := chains + [chain];
    }
    SplitChainsOk(all);
    if DistinctPositions(placed) {
      SplitChainsConnected(placed);
    }
  }

  /**
   * The inner loop of `getChainsAndSplitToTables`: starting from `seed`, the guest just placed pulls every
   * remaining involved guest in conflict with it into the chain, until no related guest is left.
   */
  method GrowChain(seed: Person, involved: seq<Person>) returns (chain: TableSplit, involved': seq<Person>)
    ensures (chain, involved') == GrowFrom(TableSplit([], []), [seed], involved)
  {
    chain := TableSplit([], []);
    var related := [seed];
    involved' := involved;
    while |related| > 0
      invariant GrowFrom(chain, related, involved') == GrowFrom(TableSplit([], []), [seed], involved)
      decreases 2 * |involved'| + |related|
    {
      ghost var (chain0, involved0) := (chain, involved');
      var current := related[|related| - 1];
      related := related[..|related| - 1];
      if CanAddToTable(chain.t0, current) {
        chain := chain.(t0 := PushCellIfNotInList(current, chain.t0));
      } else {
        chain := chain.(t1 := PushCellIfNotInList(current, chain.t1));
      }
      assert chain == Place(chain0, current);
      var matches := Matches(involved', current);
      StepShrinks(involved', related, current, matches);
      related := related + matches;
      involved' := Remaining(involved', related);
    }
  }

  /** The chains of the involved guests are well formed, account for every involved position, and never conflict with one another. */
  lemma SplitChainsOk(all: seq<Person>)
    ensures ChainsOf(all, SplitChains(all))
  {
    assert OuterState(all, [], all) by {
      forall p | p in all
        ensures HasPerson(all, p.Pos())
      {
        var k :| 0 <= k < |all| && all[k] == p;
        assert IsSameCell(all[k].Pos(), p.Pos());
      }
    }
    SplitKeeps(all, [], all);
    SplitApart([], all);
  }

  /** Every remaining chain keeps the outer bookkeeping, so the finished split is well formed and complete. */
  lemma {:induction false} SplitKeeps(all: seq<Person>, chains: seq<TableSplit>, involved: seq<Person>)
    requires OuterState(all, chains, involved)
    ensures ChainsReady(all, SplitFrom(chains, involved))
    ensures forall p :: p in all ==> InSomeChain(SplitFrom(chains, involved), p.Pos())
    ensures TotalSize(SplitFrom(chains, involved)) <= |all|
    decreases |involved|
  {
    if involved != [] {
      var seed := involved[|involved| - 1];
      var rest := involved[..|involved| - 1];
      StartChain(all, chains, involved);
      GrowKeeps(all, chains, TableSplit([], []), [seed], rest);
      var grown := GrowFrom(TableSplit([], []), [seed], rest);
      EndChain(all, chains, grown.0, grown.1);
      SplitKeeps(all, chains + [grown.0], grown.1);
    }
  }

  /** Growing a chain to its end keeps the inner bookkeeping. */
  lemma {:induction false} GrowKeeps(all: seq<Person>, chains: seq<TableSplit>, chain: TableSplit, related: seq<Person>, involved: seq<Person>)
    requires InnerState(all, chains, chain, related, involved)
    ensures InnerState(all, chains, GrowFrom(chain, related, involved).0, [], GrowFrom(chain, related, involved).1)
    decreases 2 * |involved| + |related|
  {
    if related != [] {
      var current := related[|related| - 1];
      var matches := Matches(involved, current);
      var related' := related[..|related| - 1] + matches;
      InnerStep(all, chains, chain, related, involved, current, Place(chain, current), matches);
      GrowKeeps(all, chains, Place(chain, current), related', Remaining(involved, related'));
    }
  }

  /** A guest on the position stands in the list without its last entry, or is that last entry. */
  lemma HasPersonDropLast(list: seq<Person>, pos: CellPosition)
    requires |list| > 0
    ensures HasPerson(list, pos) ==> HasPerson(list[..|list| - 1], pos) || IsSameCell(list[|list| - 1].Pos(), pos)
  {
    if HasPerson(list, pos) {
      var i :| 0 <= i < |list| && IsSameCell(list[i].Pos(), pos);
      if i < |list| - 1 {
        assert list[..|list| - 1][i] == list[i];
      }
    }
  }

  /** Taking the last involved guest as the chain's seed keeps every position accounted for. */
  lemma StartChain(all: seq<Person>, chains: seq<TableSplit>, involved: seq<Person>)
    requires |involved| > 0 && OuterState(all, chains, involved)
    ensures InnerState(all, chains, TableSplit([], []), [involved[|involved| - 1]], involved[..|involved| - 1])
  {
    var rest := involved[..|involved| - 1];
    var seed := [involved[|involved| - 1]];
    forall p | p in all
      ensures HasPerson(rest, p.Pos()) || HasPerson(seed, p.Pos()) || InSomeChain(chains, p.Pos())
    {
      HasPersonDropLast(involved, p.Pos());
      if IsSameCell(involved[|involved| - 1].Pos(), p.Pos()) {
        assert IsSameCell(seed[0].Pos(), p.Pos());
      }
    }
    assert forall p :: p in rest ==> p in involved;
    assert ChainOk(all, TableSplit([], []));
  }

  /** Closing a chain whose related list is empty keeps every position accounted for. */
  lemma EndChain(all: seq<Person>, chains: seq<TableSplit>, chain: TableSplit, involved: seq<Person>)
    requires InnerState(all, chains, chain, [], involved)
    ensures OuterState(all, chains + [chain], involved)
  {
    var cs := chains + [chain];
    assert cs[..|cs| - 1] == chains;
    forall p | p in all && !HasPerson(involved, p.Pos())
      ensures InSomeChain(cs, p.Pos())
    {
      if InSomeChain(chains, p.Pos()) {
        var i :| 0 <= i < |chains| && (HasPerson(chains[i].t0, p.Pos()) || HasPerson(chains[i].t1, p.Pos()));
        assert cs[i] == chains[i];
      } else {
        assert cs[|chains|] == chain;
      }
    }
  }

  /** One round of the inner loop keeps the inner bookkeeping and shrinks the measure. */
  lemma InnerStep(all: seq<Person>, chains: seq<TableSplit>, chain0: TableSplit, related0: seq<Person>, involved0: seq<Person>,
                  current: Person, chain: TableSplit, matches: seq<Person>)
    requires InnerState(all, chains, chain0, related0, involved0)
    requires |related0| > 0 && current == related0[|related0| - 1]
    requires chain == Place(chain0, current)
    requires matches == Matches(involved0, current)
    ensures InnerState(all, chains, chain, related0[..|related0| - 1] + matches,
                       Remaining(involved0, related0[..|related0| - 1] + matches))
    ensures 2 * |Remaining(involved0, related0[..|related0| - 1] + matches)| + |related0[..|related0| - 1] + matches|
          < 2 * |involved0| + |related0|
  {
    var rest := related0[..|related0| - 1];
    var related := rest + matches;
    var involved := Remaining(involved0, related);
    assert related0 == rest + [current];
    StepChainOk(all, chain0, current, chain);
    StepMembers(all, related0, involved0, current, matches);
    StepPositions(all, chains, chain0, related0, involved0, current, chain, matches);
  }

  /** The related and remaining involved guests after one round still come from `all`, and are no more than before. */
  lemma StepMembers(all: seq<Person>, related0: seq<Person>, involved0: seq<Person>, current: Person, matches: seq<Person>)
    requires |related0| > 0 && current == related0[|related0| - 1]
    requires Within(all, involved0) && Within(all, related0)
    requires matches == Matches(involved0, current)
    ensures Within(all, related0[..|related0| - 1] + matches)
    ensures Within(all, Remaining(involved0, related0[..|related0| - 1] + matches))
    ensures |Remaining(involved0, related0[..|related0| - 1] + matches)| + |related0[..|related0| - 1] + matches|
          < |involved0| + |related0|
  {
    var rest := related0[..|related0| - 1];
    assert forall p :: p in rest ==> p in related0;
    StepShrinks(involved0, rest, current, matches);
  }

  /** The chain after placing the current guest is still well formed. */
  lemma StepChainOk(all: seq<Person>, chain0: TableSplit, current: Person, chain: TableSplit)
    requires ChainOk(all, chain0) && current in all
    requires chain == Place(chain0, current)
    ensures ChainOk(all, chain) && |chain.t0| > 0
    ensures |chain.t0| + |chain.t1| <= |chain0.t0| + |chain0.t1| + 1
  {
    if CanAddToTable(chain0.t0, current) {
      AddKeepsConflictFree(chain0.t0, current);
      forall q | q in chain.t1
        ensures !CanAddToTable(chain.t0, q)
      {
        var t :| t in chain0.t0 && Conflicts(t, q);
        var k :| 0 <= k < |chain0.t0| && chain0.t0[k] == t;
        assert chain.t0[k] == t;
      }
    } else {
      assert chain0.t0 != [];
    }
  }

  /** Every matched guest is now related, so the remaining involved list loses at least as many as were matched. */
  lemma StepShrinks(involved0: seq<Person>, rest: seq<Person>, current: Person, matches: seq<Person>)
    requires matches == Matches(involved0, current)
    ensures |Remaining(involved0, rest + matches)| + |matches| <= |involved0|
  {
    var related := rest + matches;
    forall p | p in involved0
      ensures !(Conflicts(p, current) && !HasPerson(related, p.Pos()))
    {
      if Conflicts(p, current) {
        assert p in matches;
        var k :| 0 <= k < |matches| && matches[k] == p;
        assert related[|rest| + k] == p;
      }
    }
    FilterDisjoint(involved0, (p: Person) => Conflicts(p, current), (p: Person) => !HasPerson(related, p.Pos()));
  }

  /** Every position stays accounted for after one round of the inner loop. */
  lemma StepPositions(all: seq<Person>, chains: seq<TableSplit>, chain0: TableSplit, related0: seq<Person>, involved0: seq<Person>,
                      current: Person, chain: TableSplit, matches: seq<Person>)
    requires |related0| > 0 && current == related0[|related0| - 1]
    requires chain == Place(chain0, current)
    requires Accounted(all, chains, chain0, related0, involved0)
    ensures Accounted(all, chains, chain, related0[..|related0| - 1] + matches,
                      Remaining(involved0, related0[..|related0| - 1] + matches))
  {
    var rest := related0[..|related0| - 1];
    var related := rest + matches;
    var involved := Remaining(involved0, related);
    forall p | p in all
      ensures HasPerson(involved, p.Pos()) || HasPerson(related, p.Pos())
           || HasPerson(chain.t0, p.Pos()) || HasPerson(chain.t1, p.Pos()) || InSomeChain(chains, p.Pos())
    {
      KeepsPosition(chain0, chain, current, p.Pos());
      if HasPerson(involved0, p.Pos()) {
        var i :| 0 <= i < |involved0| && IsSameCell(involved0[i].Pos(), p.Pos());
        var q := involved0[i];
        if HasPerson(related, q.Pos()) {
          var j :| 0 <= j < |related| && IsSameCell(related[j].Pos(), q.Pos());
          assert IsSameCell(related[j].Pos(), p.Pos());
        } else {
          assert q in involved;
          var m :| 0 <= m < |involved| && involved[m] == q;
        }
      } else if HasPerson(related0, p.Pos()) {
        var i :| 0 <= i < |related0| && IsSameCell(related0[i].Pos(), p.Pos());
        if i < |rest| {
          assert related[i] == related0[i];
        }
      }
    }
  }

  /** Placing the current guest keeps every position the tables held and adds the guest's own. */
  lemma KeepsPosition(chain0: TableSplit, chain: TableSplit, current: Person, pos: CellPosition)
    requires chain == Place(chain0, current)
    ensures HasPerson(chain0.t0, pos) ==> HasPerson(chain.t0, pos)
    ensures HasPerson(chain0.t1, pos) ==> HasPerson(chain.t1, pos)
    ensures IsSameCell(current.Pos(), pos) ==> HasPerson(chain.t0, pos) || HasPerson(chain.t1, pos)
  {
    if HasPerson(chain0.t0, pos) {
      var i :| 0 <= i < |chain0.t0| && IsSameCell(chain0.t0[i].Pos(), pos);
      assert chain.t0[i] == chain0.t0[i];
    }
    if HasPerson(chain0.t1, pos) {
      var i :| 0 <= i < |chain0.t1| && IsSameCell(chain0.t1[i].Pos(), pos);
      assert chain.t1[i] == chain0.t1[i];
    }
    if IsSameCell(current.Pos(), pos) {
      var t := if CanAddToTable(chain0.t0, current) then chain.t0 else chain.t1;
      assert HasPerson(t, current.Pos());
      var i :| 0 <= i < |t| && IsSameCell(t[i].Pos(), current.Pos());
      assert IsSameCell(t[i].Pos(), pos);
    }
  }

  /** The guests of the placed chain are the old ones, plus the current guest when it was pushed. */
  lemma PlaceMembers(chain0: TableSplit, current: Person)
    ensures forall p :: p in Members(Place(chain0, current)) ==> p in Members(chain0) || p == current
    ensures forall p :: p in Members(chain0) ==> p in Members(Place(chain0, current))
  {
  }

  /** A guest in conflict with the placed guest has been moved to the related list, so none of those left over conflicts with it. */
  lemma PlaceApart(chain0: TableSplit, current: Person, rest: seq<Person>, involved0: seq<Person>)
    requires Apart(Members(chain0), involved0)
    ensures Apart(Members(Place(chain0, current)), Remaining(involved0, rest + Matches(involved0, current)))
  {
    var matches := Matches(involved0, current);
    var related := rest + matches;
    PlaceMembers(chain0, current);
    forall p, q | p in Members(Place(chain0, current)) && q in Remaining(involved0, related)
      ensures !Conflicts(p, q)
    {
      if p == current && Conflicts(p, q) {
        assert q in matches;
        var k :| 0 <= k < |matches| && matches[k] == q;
        assert IsSameCell(related[|rest| + k].Pos(), q.Pos());
      }
    }
  }

  /** Once a chain is finished, no guest left over conflicts with any of its guests. */
  lemma {:induction false} GrowApart(chain: TableSplit, related: seq<Person>, involved: seq<Person>)
    requires Apart(Members(chain), involved)
    ensures Apart(Members(GrowFrom(chain, related, involved).0), GrowFrom(chain, related, involved).1)
    decreases 2 * |involved| + |related|
  {
    if related != [] {
      var current := related[|related| - 1];
      var matches := Matches(involved, current);
      var related' := related[..|related| - 1] + matches;
      StepShrinks(involved, related[..|related| - 1], current, matches);
      PlaceApart(chain, current, related[..|related| - 1], involved);
      GrowApart(Place(chain, current), related', Remaining(involved, related'));
    }
  }

  /** A chain grown from guests of `src` holds guests of `src` only. */
  lemma {:induction false} GrowWithin(src: seq<Person>, chain: TableSplit, related: seq<Person>, involved: seq<Person>)
    requires Within(src, Members(chain)) && Within(src, related) && Within(src, involved)
    ensures Within(src, Members(GrowFrom(chain, related, involved).0))
    decreases 2 * |involved| + |related|
  {
    if related != [] {
      var current := related[|related| - 1];
      var matches := Matches(involved, current);
      var related' := related[..|related| - 1] + matches;
      StepShrinks(involved, related[..|related| - 1], current, matches);
      PlaceMembers(chain, current);
      assert forall p :: p in related[..|related| - 1] ==> p in related;
      GrowWithin(src, Place(chain, current), related', Remaining(involved, related'));
    }
  }

  /** The finished chains conflict neither with the guests still involved nor with one another. */
  predicate OuterApart(chains: seq<TableSplit>, involved: seq<Person>) {
    (forall i :: 0 <= i < |chains| ==> Apart(Members(chains[i]), involved))
    && forall i, j :: 0 <= i < j < |chains| ==> Apart(Members(chains[i]), Members(chains[j]))
  }

  /** Each new chain is drawn from the involved guests, so the finished chains never conflict with one another. */
  lemma {:induction false} SplitApart(chains: seq<TableSplit>, involved: seq<Person>)
    requires OuterApart(chains, involved)
    ensures ChainsApart(SplitFrom(chains, involved))
    decreases |involved|
  {
    if involved == [] {
      forall i, j | 0 <= i < |chains| && 0 <= j < |chains| && i != j
        ensures Apart(Members(chains[i]), Members(chains[j]))
      {
        if j < i {
          forall p, q | p in Members(chains[i]) && q in Members(chains[j])
            ensures !Conflicts(p, q)
          {
            ConflictsSymmetric(p, q);
          }
        }
      }
    } else {
      var seed := involved[|involved| - 1];
      var rest := involved[..|involved| - 1];
      var grown := GrowFrom(TableSplit([], []), [seed], rest);
      GrowApart(TableSplit([], []), [seed], rest);
      GrowWithin(involved, TableSplit([], []), [seed], rest);
      assert Within(involved, grown.1);
      var cs := chains + [grown.0];
      assert OuterApart(cs, grown.1) by {
        forall i | 0 <= i < |cs|
          ensures Apart(Members(cs[i]), grown.1)
        {
          if i < |chains| {
            assert cs[i] == chains[i];
          }
        }
        forall i, j | 0 <= i < j < |cs|
          ensures Apart(Members(cs[i]), Members(cs[j]))
        {
          assert cs[i] == chains[i];
          if j == |chains| {
            assert cs[j] == grown.0;
          } else {
            assert cs[j] == chains[j];
          }
        }
      }
      SplitApart(cs, grown.1);
    }
  }

  /** Two involved guests on the same position are the same guest, as on a board with one guest per cell. */
  predicate OnePerPosition(all: seq<Person>) {
    forall p, q :: p in all && q in all && IsSameCell(p.Pos(), q.Pos()) ==> p == q
  }

  /**
   * While a chain grows, its guests are exactly the guests placed so far (`visited`), which are linked from the
   * seed through conflicts, and every related guest conflicts with one of them.
   */
  predicate GrowingLinked(all: seq<Person>, chain: TableSplit, related: seq<Person>, involved: seq<Person>, visited: seq<Person>) {
    OnePerPosition(all) && Within(all, Members(chain)) && Within(all, related) && Within(all, involved)
    && |chain.t0| > 0 && Linked(visited) && |visited| > 0 && visited[0] == chain.t0[0]
    && SameGuests(visited, Members(chain))
    && forall r :: r in related ==> exists v :: v in visited && Conflicts(v, r)
  }

  /** Listing a guest in conflict with one already listed keeps the list linked. */
  lemma LinkedGrows(visited: seq<Person>, current: Person)
    requires Linked(visited)
    requires exists v :: v in visited && Conflicts(v, current)
    ensures Linked(visited + [current])
  {
    var visited' := visited + [current];
    forall k | 0 < k < |visited'|
      ensures ReachedAt(visited', k)
    {
      if k == |visited| {
        var v :| v in visited && Conflicts(v, current);
        var j :| 0 <= j < |visited| && visited[j] == v;
        assert visited'[j] == v && visited'[k] == current;
      } else {
        assert ReachedAt(visited, k);
        var j :| 0 <= j < k && Conflicts(visited[j], visited[k]);
        assert visited'[j] == visited[j] && visited'[k] == visited[k];
      }
    }
  }

  /** With one guest per position, the placed chain holds exactly the guests placed so far. */
  lemma PlaceSameGuests(all: seq<Person>, chain: TableSplit, current: Person, visited: seq<Person>)
    requires OnePerPosition(all) && Within(all, Members(chain)) && current in all
    requires SameGuests(visited, Members(chain))
    ensures SameGuests(visited + [current], Members(Place(chain, current)))
    ensures Within(all, Members(Place(chain, current)))
  {
    PlaceMembers(chain, current);
    var t := if CanAddToTable(chain.t0, current) then chain.t0 else chain.t1;
    if HasPerson(t, current.Pos()) {
      var i :| 0 <= i < |t| && IsSameCell(t[i].Pos(), current.Pos());
      assert t[i] in Members(chain);
    }
  }

  /** After one round every related guest still conflicts with a guest placed so far. */
  lemma RelatedLinked(rest: seq<Person>, involved: seq<Person>, current: Person, visited: seq<Person>)
    requires forall r :: r in rest ==> exists v :: v in visited && Conflicts(v, r)
    ensures forall r :: r in rest + Matches(involved, current) ==> exists v :: v in visited + [current] && Conflicts(v, r)
  {
    var visited' := visited + [current];
    forall r | r in rest + Matches(involved, current)
      ensures exists v :: v in visited' && Conflicts(v, r)
    {
      if r in rest {
        var v :| v in visited && Conflicts(v, r);
        assert v in visited';
      } else {
        ConflictsSymmetric(r, current);
        assert current in visited';
      }
    }
  }

  /** One round of the inner loop keeps the chain linked from its seed. */
  lemma StepLinked(all: seq<Person>, chain: TableSplit, related: seq<Person>, involved: seq<Person>, visited: seq<Person>)
    requires GrowingLinked(all, chain, related, involved, visited) && related != []
    ensures var current := related[|related| - 1];
            var related' := related[..|related| - 1] + Matches(involved, current);
            GrowingLinked(all, Place(chain, current), related', Remaining(involved, related'), visited + [current])
  {
    var current := related[|related| - 1];
    var rest := related[..|related| - 1];
    assert current in related;
    assert forall p :: p in rest ==> p in related;
    LinkedGrows(visited, current);
    PlaceSameGuests(all, chain, current, visited);
    RelatedLinked(rest, involved, current, visited);
    assert Place(chain, current).t0[0] == chain.t0[0];
  }

  /** A growing chain stays linked from its seed until it is finished. */
  lemma {:induction false} GrowLinked(all: seq<Person>, chain: TableSplit, related: seq<Person>, involved: seq<Person>, visited: seq<Person>)
    requires GrowingLinked(all, chain, related, involved, visited)
    ensures Connected(GrowFrom(chain, related, involved).0)
    decreases 2 * |involved| + |related|
  {
    if related == [] {
      assert Linked(visited) && |visited| > 0 && visited[0] == chain.t0[0] && SameGuests(visited, Members(chain));
    } else {
      var current := related[|related| - 1];
      var matches := Matches(involved, current);
      var related' := related[..|related| - 1] + matches;
      StepShrinks(involved, related[..|related| - 1], current, matches);
      StepLinked(all, chain, related, involved, visited);
      GrowLinked(all, Place(chain, current), related', Remaining(involved, related'), visited + [current]);
    }
  }

  /** Every chain split from guests that share no position is connected. */
  lemma {:induction false} SplitLinked(all: seq<Person>, chains: seq<TableSplit>, involved: seq<Person>)
    requires OnePerPosition(all) && Within(all, involved)
    requires forall i :: 0 <= i < |chains| ==> Connected(chains[i])
    ensures forall i :: 0 <= i < |SplitFrom(chains, involved)| ==> Connected(SplitFrom(chains, involved)[i])
    decreases |involved|
  {
    if involved != [] {
      var seed := involved[|involved| - 1];
      var rest := involved[..|involved| - 1];
      var matches := Matches(rest, seed);
      var first := Place(TableSplit([], []), seed);
      assert first == TableSplit([seed], []);
      assert [seed][..0] + matches == matches;
      assert GrowFrom(TableSplit([], []), [seed], rest) == GrowFrom(first, matches, Remaining(rest, matches));
      assert forall p :: p in rest ==> p in involved;
      assert Linked([seed]);
      forall r | r in matches
        ensures exists v :: v in [seed] && Conflicts(v, r)
      {
        ConflictsSymmetric(r, seed);
        assert seed in [seed];
      }
      assert GrowingLinked(all, first, matches, Remaining(rest, matches), [seed]);
      GrowLinked(all, first, matches, Remaining(rest, matches), [seed]);
      var grown := GrowFrom(TableSplit([], []), [seed], rest);
      var cs := chains + [grown.0];
      forall i | 0 <= i < |cs|
        ensures Connected(cs[i])
      {
        if i < |chains| {
          assert cs[i] == chains[i];
        }
      }
      SplitLinked(all, cs, grown.1);
    }
  }

  /**
   * On a board with one guest per cell, every chain of the involved guests is connected: its guests are reached
   * from its seed through conflicts between guests of the chain.
   */
  lemma SplitChainsConnected(placed: seq<Person>)
    requires DistinctPositions(placed)
    ensures forall i :: 0 <= i < |SplitChains(InvolvedPersons(placed))| ==> Connected(SplitChains(InvolvedPersons(placed))[i])
  {
    var all := InvolvedPersons(placed);
    forall p, q | p in all && q in all && IsSameCell(p.Pos(), q.Pos())
      ensures p == q
    {
      var i :| 0 <= i < |placed| && placed[i] == p;
      var j :| 0 <= j < |placed| && placed[j] == q;
    }
    SplitLinked(all, [], all);
  }

  /** `getMismatchCount`: guests of virtual table 0 not at real table `index0`, plus those of table 1 not at `index1`. */
  function GetMismatchCount(split: TableSplit, index0: int, index1: int): (r: nat)
    ensures r <= |split.t0| + |split.t1|
  {
    |Filter(split.t0, (p: Person) => p.tableIndex != Some(index0))| + |Filter(split.t1, (p: Person) => p.tableIndex != Some(index1))|
  }

  /** What one chain adds to the par: the cheaper of mapping the virtual tables onto real tables 0/1 or 1/0. */
  function ChainCost(split: TableSplit): nat {
    var variant1 := GetMismatchCount(split, 0, 1);
    var variant2 := GetMismatchCount(split, 1, 0);
    if variant1 <= variant2 then variant1 else variant2
  }

  /** Every guest of the chain sits at real table 0 or 1. */
  predicate AtFirstTwoTables(split: TableSplit) {
    (forall q :: q in split.t0 ==> q.tableIndex == Some(0) || q.tableIndex == Some(1))
    && (forall q :: q in split.t1 ==> q.tableIndex == Some(0) || q.tableIndex == Some(1))
  }

  /** When every guest of the chain sits at table 0 or 1, the two variants' mismatches add up to the chain's size. */
  lemma MismatchCountsComplement(split: TableSplit)
    requires AtFirstTwoTables(split)
    ensures GetMismatchCount(split, 0, 1) + GetMismatchCount(split, 1, 0) == |split.t0| + |split.t1|
  {
    FilterComplement(split.t0, (p: Person) => p.tableIndex != Some(0), (p: Person) => p.tableIndex != Some(1));
    FilterComplement(split.t1, (p: Person) => p.tableIndex != Some(1), (p: Person) => p.tableIndex != Some(0));
  }

  /** A chain never costs more than its size, and at most half of it when everybody sits at table 0 or 1. */
  lemma ChainCostBound(split: TableSplit)
    ensures ChainCost(split) <= |split.t0| + |split.t1|
    ensures AtFirstTwoTables(split) ==> 2 * ChainCost(split) <= |split.t0| + |split.t1|
  {
    if AtFirstTwoTables(split) {
      MismatchCountsComplement(split);
    }
  }

  /** The summed cost of the chains. */
  function ChainsCost(chains: seq<TableSplit>): nat {
    if chains == [] then 0 else ChainsCost(chains[..|chains| - 1]) + ChainCost(chains[|chains| - 1])
  }

  /** Extending a prefix of the chains by one chain adds that chain's cost. */
  lemma ChainsCostStep(chains: seq<TableSplit>, i: nat)
    requires i < |chains|
    ensures ChainsCost(chains[..i + 1]) == ChainsCost(chains[..i]) + ChainCost(chains[i])
  {
    assert chains[..i + 1][..i] == chains[..i];
  }

  /** The chains cost no more than their entries, and at most half of them when every involved guest sits at table 0 or 1. */
  lemma {:induction false} ChainsCostBound(chains: seq<TableSplit>, all: seq<Person>)
    requires forall i :: 0 <= i < |chains| ==> ChainOk(all, chains[i])
    ensures ChainsCost(chains) <= TotalSize(chains)
    ensures (forall p :: p in all ==> p.tableIndex == Some(0) || p.tableIndex == Some(1)) ==> 2 * ChainsCost(chains) <= TotalSize(chains)
  {
    if chains != [] {
      var last := chains[|chains| - 1];
      ChainsCostBound(chains[..|chains| - 1], all);
      ChainCostBound(last);
      assert ChainOk(all, last);
    }
  }

  /**
   * Chains built from the involved guests cost no more than there are involved guests, at most half of them
   * when they all sit at table 0 or 1, and nothing when no guest has an aversion.
   */
  lemma ChainsParBound(placed: seq<Person>, chains: seq<TableSplit>)
    requires ChainsOf(InvolvedPersons(placed), chains)
    ensures ChainsCost(chains) <= |InvolvedPersons(placed)|
    ensures (forall p :: p in InvolvedPersons(placed) ==> p.tableIndex == Some(0) || p.tableIndex == Some(1)) ==>
      2 * ChainsCost(chains) <= |InvolvedPersons(placed)|
    ensures (forall p :: p in placed ==> p.phobia.None?) ==> ChainsCost(chains) == 0
  {
    ChainsCostBound(chains, InvolvedPersons(placed));
  }

  /**
   * `hasTablePhobia`: the guest's aversion is one of the table-scoped types. Which types those are is
   * the set the caller supplies; a guest without an aversion never has a table-scoped one.
   */
  predicate HasTablePhobia(p: Person, tablePhobias: set<Phobia>)
    ensures p.phobia.None? ==> !HasTablePhobia(p, tablePhobias)
    ensures p.phobia.Some? ==> (HasTablePhobia(p, tablePhobias) <==> p.phobia.value in tablePhobias)
  {
    p.phobia.Some? && p.phobia.value in tablePhobias
  }

  /** A guest whose aversion is table-scoped is never counted as triggered by a neighbour. */
  lemma TablePhobiaNotTriggered(placed: seq<Person>, tablePhobias: set<Phobia>, p: Person)
    requires HasTablePhobia(p, tablePhobias)
    ensures p !in GetPersonsWithRegularPhobiaTriggered(placed, tablePhobias)
  {
  }

  /**
   * `getPersonsWithRegularPhobiaTriggered`: the guests whose aversion is not table-scoped and who have a
   * neighbour (above, below or across at the same table) of the feared type.
   */
  function GetPersonsWithRegularPhobiaTriggered(placed: seq<Person>, tablePhobias: set<Phobia>): (r: seq<Person>)
    ensures forall p :: p in r <==>
      (p in placed && !HasTablePhobia(p, tablePhobias)
       && exists n :: n in placed && n.tableIndex == p.tableIndex && IsChairNeighbor(n.Pos(), p.Pos()) && Some(n.name) == p.phobia)
    ensures forall p :: p in r ==> p.phobia.Some? && p.phobia.value !in tablePhobias
    ensures |r| <= |placed|
    ensures (forall p :: p in placed ==> p.phobia.None?) ==> r == []
  {
    var triggered := (p: Person) =>
      !HasTablePhobia(p, tablePhobias) && exists n :: n in GetNeighbors(placed, p.Pos(), p.tableIndex) && Some(n.name) == p.phobia;
    if forall p :: p in placed ==> p.phobia.None? then
      FilterNone(placed, triggered);
      Filter(placed, triggered)
    else
      Filter(placed, triggered)
  }

  /** The loop over the chains in `simplifiedCalculateParViaChains`: each chain adds its cheaper variant's mismatches. */
  method SumChainCosts(tableSplits: seq<TableSplit>) returns (par: nat)
    ensures par == ChainsCost(tableSplits)
  {
    par := 0;
    for i := 0 to |tableSplits|
      invariant par == ChainsCost(tableSplits[..i])
    {
      var variant1MismatchCount := GetMismatchCount(tableSplits[i], 0, 1);
      var variant2MismatchCount := GetMismatchCount(tableSplits[i], 1, 0);
      par := par + if variant1MismatchCount <= variant2MismatchCount then variant1MismatchCount else variant2MismatchCount;
      ChainsCostStep(tableSplits, i);
    }
    assert tableSplits[..|tableSplits|] == tableSplits;
  }

  /**
   * `simplifiedCalculateParViaChains`: the summed cost of the chains `getChainsAndSplitToTables` builds, plus the
   * number of guests whose neighbour-scoped aversion is triggered. Without any aversion on the board the par is 0;
   * the chain part never exceeds the number of involved guests, and is at most half of it when they all sit at
   * table 0 or 1.
   */
  method SimplifiedCalculateParViaChains(placed: seq<Person>, tablePhobias: set<Phobia>) returns (par: int)
    ensures par == ChainsCost(SplitChains(InvolvedPersons(placed))) + |GetPersonsWithRegularPhobiaTriggered(placed, tablePhobias)|
    ensures var triggered := |GetPersonsWithRegularPhobiaTriggered(placed, tablePhobias)|;
      triggered <= par <= triggered + |InvolvedPersons(placed)|
      && ((forall p :: p in InvolvedPersons(placed) ==> p.tableIndex == Some(0) || p.tableIndex == Some(1)) ==>
            2 * (par - triggered) <= |InvolvedPersons(placed)|)
    ensures (forall p :: p in placed ==> p.phobia.None?) ==> par == 0
  {
    var tableSplits := GetChainsAndSplitToTables(placed);
    var personsWithOnlySmallFearTriggered := |GetPersonsWithRegularPhobiaTriggered(placed, tablePhobias)|;
    par := SumChainCosts(tableSplits);
    ChainsParBound(placed, tableSplits);
    par := par + personsWithOnlySmallFearTriggered;
  }
}
