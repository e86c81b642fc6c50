/** The pure parts of a character's declaration: the ordering of inactive quest states,
    the set it orders, and the bit flags of the `hidden` field. */
module Characters {

  /** A quest id is a `short`. */
  type QuestId = x: int | -0x8000 <= x < 0x8000

  /** A quest's state kept after the quest was reset. */
  datatype QuestState = QuestState(questId: QuestId, state: string, progress: string)

  /** `operator<`: quest states are ordered by quest id alone. */
  predicate Before(a: QuestState, b: QuestState) {
    a.questId < b.questId
  }

  /** The ordering is a strict weak order whose equivalence (neither before the other)
      is "same quest id", whatever the state and progress texts. */
  lemma BeforeIsStrictWeakOrder(a: QuestState, b: QuestState, c: QuestState)
    ensures !Before(a, a)
    ensures Before(a, b) && Before(b, c) ==> Before(a, c)
    ensures (!Before(a, b) && !Before(b, a)) <==> a.questId == b.questId
  {
  }

  /** The element order of an ordered set under `Before`: strictly ascending. */
  predicate Ordered(s: seq<QuestState>) {
    forall i, j :: 0 <= i < j < |s| ==> Before(s[i], s[j])
  }

  function QuestIds(s: seq<QuestState>): set<int> {
    set e | e in s :: e.questId
  }

  lemma QuestIdsOfCons(x: QuestState, t: seq<QuestState>)
    ensures QuestIds([x] + t) == {x.questId} + QuestIds(t)
  {
    assert forall e :: e in [x] + t <==> e == x || e in t;
  }

  /** Every id of an ordered set lies above the id of its first element. */
  lemma OrderedHead(s: seq<QuestState>)
    requires Ordered(s) && s != []
    ensures Ordered(s[1..])
    ensures forall id :: id in QuestIds(s[1..]) ==> s[0].questId < id
  {
    forall id | id in QuestIds(s[1..]) ensures s[0].questId < id {
      var e :| e in s[1..] && e.questId == id;
      var j :| 0 <= j < |s[1..]| && s[1..][j] == e;
      assert Before(s[0], s[j + 1]);
    }
  }

  /** A state placed before an ordered set whose ids all exceed its own keeps it ordered. */
  lemma OrderedCons(x: QuestState, t: seq<QuestState>)
    requires Ordered(t)
    requires forall id :: id in QuestIds(t) ==> x.questId < id
    ensures Ordered([x] + t)
  {
    forall i, j | 0 <= i < j < |[x] + t| ensures Before(([x] + t)[i], ([x] + t)[j]) {
      if i == 0 {
        assert t[j - 1] in t;
        assert t[j - 1].questId in QuestIds(t);
      }
    }
  }

  /** Inserting into the ordered set of inactive quest states: a state whose quest id is
      already present is refused and the set is left as it was; otherwise the state
      takes its place in the order. */
  function Insert(s: seq<QuestState>, q: QuestState): seq<QuestState> {
    if s == [] then [q]
    else if Before(q, s[0]) then [q] + s
    else if Before(s[0], q) then [s[0]] + Insert(s[1..], q)
    else s
  }

  /** Insertion keeps the set ordered and adds exactly the new quest id. */
  lemma {:induction false} InsertKeepsOrder(s: seq<QuestState>, q: QuestState)
    requires Ordered(s)
    ensures Ordered(Insert(s, q))
    ensures QuestIds(Insert(s, q)) == QuestIds(s) + {q.questId}
  {
    if s == [] {
      QuestIdsOfCons(q, []);
      OrderedCons(q, []);
    } else {
      assert s == [s[0]] + s[1..];
      QuestIdsOfCons(s[0], s[1..]);
      OrderedHead(s);
      if Before(q, s[0]) {
        QuestIdsOfCons(q, s);
        OrderedCons(q, s);
      } else if Before(s[0], q) {
        var rest := Insert(s[1..], q);
        InsertKeepsOrder(s[1..], q);
        QuestIdsOfCons(s[0], rest);
        OrderedCons(s[0], rest);
      }
    }
  }

  /** A state for a quest already in the set is refused, leaving the set as it was; any
      other state is added, and every state already there stays. */
  lemma {:induction false} InsertRefusesDuplicates(s: seq<QuestState>, q: QuestState)
    requires Ordered(s)
    ensures q.questId in QuestIds(s) ==> Insert(s, q) == s
    ensures q.questId !in QuestIds(s) ==>
      |Insert(s, q)| == |s| + 1 && q in Insert(s, q) && forall e :: e in s ==> e in Insert(s, q)
  {
    if s != [] {
      assert s == [s[0]] + s[1..];
      QuestIdsOfCons(s[0], s[1..]);
      OrderedHead(s);
      if Before(s[0], q) {
        InsertRefusesDuplicates(s[1..], q);
      }
    }
  }

  /** An ordered set holds at most one state per quest id. */
  lemma OrderedHoldsOnePerQuest(s: seq<QuestState>, i: int, j: int)
    requires Ordered(s) && 0 <= i < |s| && 0 <= j < |s|
    requires s[i].questId == s[j].questId
    ensures i == j
  {
  }

  /** The flags of the `hidden` field. */
  const HideInvisible: bv32 := 0x01
  const HideOnline: bv32 := 0x02
  const HideNpc: bv32 := 0x04
  const HideAdmin: bv32 := 0x08
  const HideWarp: bv32 := 0x10

  const HideOnlineExplicit: bv32 := 0x020000
  const HideNpcExplicit: bv32 := 0x040000
  const HideAdminExplicit: bv32 := 0x080000
  const HideWarpExplicit: bv32 := 0x100000

  const HideAll: bv32 := 0x1F

  predicate IsHideInvisible(hidden: bv32) { hidden & HideInvisible != 0 }
  predicate IsHideOnline(hidden: bv32) { hidden & HideOnline != 0 }
  predicate IsHideNpc(hidden: bv32) { hidden & HideNpc != 0 }
  predicate IsHideAdmin(hidden: bv32) { hidden & HideAdmin != 0 }
  predicate IsHideWarp(hidden: bv32) { hidden & HideWarp != 0 }

  /** `HideAll` is the union of the five implicit flags, and none of the explicit
      flags overlaps it. */
  lemma HideAllIsTheImplicitFlags()
    ensures HideAll == HideInvisible | HideOnline | HideNpc | HideAdmin | HideWarp
    ensures (HideOnlineExplicit | HideNpcExplicit | HideAdminExplicit | HideWarpExplicit) & HideAll == 0
  {
  }

  /** The five predicates look only at the bits of `HideAll`: the explicit flags and any
      other high bits never change them. */
  lemma PredicatesReadOnlyHideAll(hidden: bv32)
    ensures IsHideInvisible(hidden) == IsHideInvisible(hidden & HideAll)
    ensures IsHideOnline(hidden) == IsHideOnline(hidden & HideAll)
    ensures IsHideNpc(hidden) == IsHideNpc(hidden & HideAll)
    ensures IsHideAdmin(hidden) == IsHideAdmin(hidden & HideAll)
    ensures IsHideWarp(hidden) == IsHideWarp(hidden & HideAll)
  {
    assert (hidden & HideAll) & HideInvisible == hidden & HideInvisible;
    assert (hidden & HideAll) & HideOnline == hidden & HideOnline;
    assert (hidden & HideAll) & HideNpc == hidden & HideNpc;
    assert (hidden & HideAll) & HideAdmin == hidden & HideAdmin;
    assert (hidden & HideAll) & HideWarp == hidden & HideWarp;
  }

  /** Every predicate holds exactly when all of `HideAll` is set. */
  lemma AllHiddenIffHideAll(hidden: bv32)
    ensures (IsHideInvisible(hidden) && IsHideOnline(hidden) && IsHideNpc(hidden)
             && IsHideAdmin(hidden) && IsHideWarp(hidden)) <==> hidden & HideAll == HideAll
  {
    var low := hidden & HideAll;
    assert low & HideInvisible == hidden & HideInvisible;
    assert low & HideOnline == hidden & HideOnline;
    assert low & HideNpc == hidden & HideNpc;
    assert low & HideAdmin == hidden & HideAdmin;
    assert low & HideWarp == hidden & HideWarp;
  }

  /** Flags outside `HideAll`, the explicit ones among them, never turn a predicate on or off. */
  lemma ExplicitFlagsDoNotHide(hidden: bv32, extra: bv32)
    requires extra & HideAll == 0
    ensures IsHideInvisible(hidden | extra) == IsHideInvisible(hidden)
    ensures IsHideOnline(hidden | extra) == IsHideOnline(hidden)
    ensures IsHideNpc(hidden | extra) == IsHideNpc(hidden)
    ensures IsHideAdmin(hidden | extra) == IsHideAdmin(hidden)
    ensures IsHideWarp(hidden | extra) == IsHideWarp(hidden)
  {
    assert (hidden | extra) & HideAll == hidden & HideAll;
    PredicatesReadOnlyHideAll(hidden);
    PredicatesReadOnlyHideAll(hidden | extra);
  }
}
