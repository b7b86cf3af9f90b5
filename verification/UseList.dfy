// Values, their use lists and their operand vectors, and the edits all passes make
// through them. One class stands for Value and User: a value that is no user has no
// operands.
module UseLists {

  datatype Use = Use(user: Value, argNo: nat)

  type Lists = map<Value, seq<Use>>

  type Slots = map<Value, seq<Value?>>

  // ----- lists and slots as values -----

  /** How often v must list slot i of u: once if the slot holds v, unless u is being deleted. */
  function Expected(slots: Slots, dead: set<Value>, v: Value, u: Value, i: nat): nat {
    if u in slots && u !in dead && i < |slots[u]| && slots[u][i] == v then 1 else 0
  }

  /** The occupant of a slot is a known value or null. */
  predicate SlotInside(slots: Slots, u: Value, i: nat) {
    u in slots && i < |slots[u]| && slots[u][i] != null ==> slots[u][i] in slots
  }

  /** Use lists and operand vectors are exact inverses; the users in `dead` have withdrawn. */
  ghost predicate Mirror(lists: Lists, slots: Slots, dead: set<Value>) {
    && lists.Keys == slots.Keys
    && (forall u, i {:trigger SlotInside(slots, u, i)} :: u in slots && u !in dead ==> SlotInside(slots, u, i))
    && (forall v: Value, x: Use :: v in lists && x in lists[v] ==> x.user in slots && x.user !in dead)
    && (forall v, u, i {:trigger Expected(slots, dead, v, u, i)} ::
          v in lists && u in slots ==> multiset(lists[v])[Use(u, i)] == Expected(slots, dead, v, u, i))
  }

  /** The entries whose user is (or is not) one of the chosen, in order. */
  function Select(uses: seq<Use>, chosen: set<Value>, want: bool): seq<Use> {
    if uses == [] then []
    else if (uses[0].user in chosen) == want then [uses[0]] + Select(uses[1..], chosen, want)
    else Select(uses[1..], chosen, want)
  }

  lemma {:induction false} SelectCount(uses: seq<Use>, chosen: set<Value>, want: bool, x: Use)
    ensures multiset(Select(uses, chosen, want))[x] == if (x.user in chosen) == want then multiset(uses)[x] else 0
  {
    if uses != [] {
      assert uses == [uses[0]] + uses[1..];
      SelectCount(uses[1..], chosen, want, x);
    }
  }

  lemma SelectCounts(uses: seq<Use>, chosen: set<Value>)
    ensures forall x :: multiset(Select(uses, chosen, false))[x] == if x.user in chosen then 0 else multiset(uses)[x]
    ensures forall x :: multiset(Select(uses, chosen, true))[x] == if x.user in chosen then multiset(uses)[x] else 0
  {
    forall x
      ensures multiset(Select(uses, chosen, false))[x] == if x.user in chosen then 0 else multiset(uses)[x]
      ensures multiset(Select(uses, chosen, true))[x] == if x.user in chosen then multiset(uses)[x] else 0
    {
      SelectCount(uses, chosen, false, x);
      SelectCount(uses, chosen, true, x);
    }
  }

  lemma {:induction false} SelectSnoc(uses: seq<Use>, chosen: set<Value>, want: bool, k: nat)
    requires k < |uses|
    ensures Select(uses[..k + 1], chosen, want)
         == Select(uses[..k], chosen, want) + if (uses[k].user in chosen) == want then [uses[k]] else []
  {
    if k == 0 {
      assert uses[..1][1..] == [] && uses[..0] == [];
    } else {
      assert uses[..k + 1][1..] == uses[1..][..k] && uses[..k][1..] == uses[1..][..k - 1];
      SelectSnoc(uses[1..], chosen, want, k - 1);
    }
  }

  lemma {:induction false} SelectEvery(uses: seq<Use>, chosen: set<Value>)
    requires forall x :: x in uses ==> x.user in chosen
    ensures Select(uses, chosen, true) == uses && Select(uses, chosen, false) == []
  {
    if uses != [] { SelectEvery(uses[1..], chosen); }
  }

  lemma {:induction false} SelectTwice(uses: seq<Use>, chosen: set<Value>)
    ensures Select(Select(uses, chosen, false), chosen, false) == Select(uses, chosen, false)
  {
    if uses != [] { SelectTwice(uses[1..], chosen); }
  }

  /** The loop has gone past the first k entries and erased the chosen ones. */
  ghost predicate Passed(uses: seq<Use>, chosen: set<Value>, k: nat, list: seq<Use>, it: nat) {
    && k <= |uses|
    && it == |Select(uses[..k], chosen, false)|
    && list == Select(uses[..k], chosen, false) + uses[k..]
  }

  lemma PassedMore(uses: seq<Use>, chosen: set<Value>, k: nat, list: seq<Use>, it: nat)
    requires Passed(uses, chosen, k, list, it) && it < |list|
    ensures k < |uses|
  {
  }

  lemma PassedAll(uses: seq<Use>, chosen: set<Value>, k: nat, list: seq<Use>, it: nat)
    requires Passed(uses, chosen, k, list, it) && it >= |list|
    ensures k == |uses| && uses[..k] == uses && list == Select(uses, chosen, false)
  {
    assert uses[..k] == uses;
  }

  /** Advancing past the k-th entry, by stepping over it or erasing it. */
  lemma SelectAdvance(uses: seq<Use>, chosen: set<Value>, k: nat, list: seq<Use>, it: nat)
    requires k < |uses| && list == Select(uses[..k], chosen, false) + uses[k..] && it == |Select(uses[..k], chosen, false)|
    ensures list[it] == uses[k]
    ensures uses[k].user !in chosen ==>
              list == Select(uses[..k + 1], chosen, false) + uses[k + 1..] && it + 1 == |Select(uses[..k + 1], chosen, false)|
    ensures uses[k].user in chosen ==>
              list[..it] + list[it + 1..] == Select(uses[..k + 1], chosen, false) + uses[k + 1..]
              && it == |Select(uses[..k + 1], chosen, false)|
  {
    SelectSnoc(uses, chosen, false, k);
    assert uses[k..] == [uses[k]] + uses[k + 1..];
  }

  /** The operands with v replaced by w. */
  function Redirected(ops: seq<Value?>, v: Value, w: Value): (r: seq<Value?>)
    ensures |r| == |ops| && forall i :: 0 <= i < |ops| ==> r[i] == if ops[i] == v then w else ops[i]
  {
    seq(|ops|, i requires 0 <= i < |ops| => if ops[i] == v then w else ops[i])
  }

  /** Every slot of a chosen user that held v holds w. */
  function RedirectedSlots(slots: Slots, chosen: set<Value>, v: Value, w: Value): Slots {
    map u | u in slots :: if u in chosen then Redirected(slots[u], v, w) else slots[u]
  }

  /** The entries of the chosen users move from v to the end of w's list. */
  function MovedLists(lists: Lists, chosen: set<Value>, v: Value, w: Value): Lists
    requires v in lists && w in lists
  {
    lists[v := Select(lists[v], chosen, false)][w := lists[w] + Select(lists[v], chosen, true)]
  }

  lemma MoveCount(lists: Lists, slots: Slots, chosen: set<Value>, v: Value, w: Value, x: Value, u: Value, i: nat)
    requires Mirror(lists, slots, {}) && v in lists && w in lists && v != w && x in lists && u in slots
    ensures multiset(MovedLists(lists, chosen, v, w)[x])[Use(u, i)]
         == Expected(RedirectedSlots(slots, chosen, v, w), {}, x, u, i)
  {
    assert multiset(lists[x])[Use(u, i)] == Expected(slots, {}, x, u, i);
    assert multiset(lists[v])[Use(u, i)] == Expected(slots, {}, v, u, i);
    SelectCount(lists[v], chosen, false, Use(u, i));
    SelectCount(lists[v], chosen, true, Use(u, i));
  }

  /** Redirecting slots and moving their entries keeps the lists exact, for any choice of users. */
  lemma MoveKeepsMirror(lists: Lists, slots: Slots, chosen: set<Value>, v: Value, w: Value)
    requires Mirror(lists, slots, {}) && v in lists && w in lists && v != w
    ensures Mirror(MovedLists(lists, chosen, v, w), RedirectedSlots(slots, chosen, v, w), {})
  {
    var lists', slots' := MovedLists(lists, chosen, v, w), RedirectedSlots(slots, chosen, v, w);
    forall u, i {:trigger SlotInside(slots', u, i)} | u in slots' ensures SlotInside(slots', u, i) {
      assert SlotInside(slots, u, i);
    }
    forall x, u, i {:trigger Expected(slots', {}, x, u, i)} | x in lists' && u in slots'
      ensures multiset(lists'[x])[Use(u, i)] == Expected(slots', {}, x, u, i)
    {
      MoveCount(lists, slots, chosen, v, w, x, u, i);
    }
    forall x: Value, e: Use | x in lists' && e in lists'[x] ensures e.user in slots' {
      MovedUser(lists, chosen, v, w, x, e);
    }
  }

  lemma MovedUser(lists: Lists, chosen: set<Value>, v: Value, w: Value, x: Value, e: Use)
    requires v in lists && w in lists && x in lists && e in MovedLists(lists, chosen, v, w)[x]
    ensures e in lists[x] || e in lists[v]
  {
    SelectCount(lists[v], chosen, false, e);
    SelectCount(lists[v], chosen, true, e);
  }

  /** Filling an empty slot, or adding one, and listing the use keeps the lists exact. */
  lemma FillKeepsMirror(lists: Lists, slots: Slots, u: Value, i: nat, v: Value, ops: seq<Value?>)
    requires Mirror(lists, slots, {}) && u in slots && v in slots
    requires i < |ops| && ops[i] == v && (i < |slots[u]| ==> slots[u][i] == null)
    requires |slots[u]| <= |ops| <= (if i == |slots[u]| then i + 1 else |slots[u]|)
    requires forall j :: 0 <= j < |slots[u]| && j != i ==> ops[j] == slots[u][j]
    ensures Mirror(lists[v := lists[v] + [Use(u, i)]], slots[u := ops], {})
  {
    var lists', slots' := lists[v := lists[v] + [Use(u, i)]], slots[u := ops];
    forall x, j {:trigger SlotInside(slots', x, j)} | x in slots' ensures SlotInside(slots', x, j) {
      assert SlotInside(slots, x, j);
    }
    forall x, y, j {:trigger Expected(slots', {}, x, y, j)} | x in lists' && y in slots'
      ensures multiset(lists'[x])[Use(y, j)] == Expected(slots', {}, x, y, j)
    {
      assert multiset(lists[x])[Use(y, j)] == Expected(slots, {}, x, y, j);
    }
  }

  /** A user that has dropped its entries everywhere is withdrawn. */
  lemma WithdrawKeepsMirror(lists: Lists, slots: Slots, dead: set<Value>, d: Value, lists': Lists)
    requires Mirror(lists, slots, dead) && d in slots && d !in dead && lists'.Keys == lists.Keys
    requires forall v :: v in lists ==> lists'[v] == if v in slots[d] then Select(lists[v], {d}, false) else lists[v]
    ensures Mirror(lists', slots, dead + {d})
  {
    forall u, i {:trigger SlotInside(slots, u, i)} | u in slots && u !in dead + {d} ensures SlotInside(slots, u, i) {}
    forall v, u, i {:trigger Expected(slots, dead + {d}, v, u, i)} | v in lists' && u in slots
      ensures multiset(lists'[v])[Use(u, i)] == Expected(slots, dead + {d}, v, u, i)
    {
      assert multiset(lists[v])[Use(u, i)] == Expected(slots, dead, v, u, i);
      SelectCount(lists[v], {d}, false, Use(u, i));
    }
    forall v: Value, x: Use | v in lists' && x in lists'[v] ensures x.user in slots && x.user !in dead + {d} {
      SelectCount(lists[v], {d}, false, x);
      assert multiset(lists[v])[Use(x.user, x.argNo)] == Expected(slots, dead, v, x.user, x.argNo);
    }
  }

  /** Withdrawn values can be forgotten once no remaining slot holds them. */
  lemma DeadCanGo(lists: Lists, slots: Slots, dead: set<Value>)
    requires Mirror(lists, slots, dead)
    requires forall u, i :: u in slots && u !in dead && 0 <= i < |slots[u]| ==> slots[u][i] !in dead
    ensures Mirror(lists - dead, slots - dead, {})
  {
    var lists', slots' := lists - dead, slots - dead;
    forall u, i {:trigger SlotInside(slots', u, i)} | u in slots' ensures SlotInside(slots', u, i) {
      assert SlotInside(slots, u, i);
    }
    forall v, u, i {:trigger Expected(slots', {}, v, u, i)} | v in lists' && u in slots'
      ensures multiset(lists'[v])[Use(u, i)] == Expected(slots', {}, v, u, i)
    {
      assert multiset(lists[v])[Use(u, i)] == Expected(slots, dead, v, u, i);
    }
  }

  /** The entries of v are exactly the slots that hold it, each once. */
  lemma EntriesAreSlots(lists: Lists, slots: Slots, dead: set<Value>, v: Value)
    requires Mirror(lists, slots, dead) && v in lists
    ensures forall u, i: nat :: Use(u, i) in lists[v] <==> u in slots && u !in dead && i < |slots[u]| && slots[u][i] == v
    ensures forall u, i: nat :: Use(u, i) in lists[v] ==> multiset(lists[v])[Use(u, i)] == 1
  {
    forall u, i: nat
      ensures Use(u, i) in lists[v] <==> u in slots && u !in dead && i < |slots[u]| && slots[u][i] == v
      ensures Use(u, i) in lists[v] ==> multiset(lists[v])[Use(u, i)] == 1
    {
      if u in slots { assert multiset(lists[v])[Use(u, i)] == Expected(slots, dead, v, u, i); }
    }
  }

  // ----- the objects -----

  ghost function ListsOf(all: set<Value>): Lists
    reads all`useList
  {
    map v | v in all :: v.useList
  }

  ghost function SlotsOf(all: set<Value>): Slots
    reads all`operands
  {
    map v | v in all :: v.operands
  }

  class Value {
    var useList: seq<Use>
    var operands: seq<Value?>

    constructor (numOps: nat)
      ensures useList == [] && operands == seq(numOps, _ => null)
    {
      useList, operands := [], seq(numOps, _ => null);
    }

    method AddUse(user: Value, argNo: nat)
      modifies this`useList
      ensures useList == old(useList) + [Use(user, argNo)]
    {
      useList := useList + [Use(user, argNo)];
    }

    /** Puts v into a slot and lists the use; an earlier occupant keeps its entry. */
    method SetOperand(i: nat, v: Value)
      requires i < |operands|
      modifies this`operands, v`useList
      ensures operands == old(operands)[i := v] && v.useList == old(v.useList) + [Use(this, i)]
    {
      operands := operands[i := v];
      v.AddUse(this, i);
    }

    method AddOperand(v: Value)
      modifies this`operands, v`useList
      ensures operands == old(operands) + [v] && v.useList == old(v.useList) + [Use(this, |old(operands)|)]
    {
      operands := operands + [v];
      v.AddUse(this, |operands| - 1);
    }

    /** SetOperand seen from the set of all values. */
    method Redirect(i: nat, v: Value, ghost all: set<Value>)
      requires this in all && v in all && i < |operands|
      modifies this`operands, v`useList
      ensures SlotsOf(all) == old(SlotsOf(all))[this := old(operands)[i := v]]
      ensures v.useList == old(v.useList) + [Use(this, i)]
    {
      SetOperand(i, v);
    }

    /** Drops every entry of one user. */
    method RemoveUse(user: Value)
      modifies this`useList
      ensures useList == Select(old(useList), {user}, false)
    {
      useList := Select(useList, {user}, false);
    }

    method SetFreshOperand(i: nat, v: Value, ghost all: set<Value>)
      requires this in all && v in all && Mirror(ListsOf(all), SlotsOf(all), {}) && i < |operands| && operands[i] == null
      modifies this`operands, v`useList
      ensures Mirror(ListsOf(all), SlotsOf(all), {}) && SlotsOf(all) == old(SlotsOf(all))[this := old(operands)[i := v]]
    {
      SetOperand(i, v);
      FillKeepsMirror(old(ListsOf(all)), old(SlotsOf(all)), this, i, v, operands);
      assert ListsOf(all) == old(ListsOf(all))[v := v.useList] && SlotsOf(all) == old(SlotsOf(all))[this := operands];
    }

    method AddFreshOperand(v: Value, ghost all: set<Value>)
      requires this in all && v in all && Mirror(ListsOf(all), SlotsOf(all), {})
      modifies this`operands, v`useList
      ensures Mirror(ListsOf(all), SlotsOf(all), {}) && SlotsOf(all) == old(SlotsOf(all))[this := old(operands) + [v]]
    {
      AddOperand(v);
      FillKeepsMirror(old(ListsOf(all)), old(SlotsOf(all)), this, |old(operands)|, v, operands);
      assert ListsOf(all) == old(ListsOf(all))[v := v.useList] && SlotsOf(all) == old(SlotsOf(all))[this := operands];
    }

    /** All slots holding this value hold newVal afterwards, no other slot changes, and every
        entry moves to newVal. */
    method ReplaceAllUseWith(newVal: Value, ghost all: set<Value>)
      requires this in all && newVal in all && newVal != this && Mirror(ListsOf(all), SlotsOf(all), {})
      modifies all
      ensures Mirror(ListsOf(all), SlotsOf(all), {})
      ensures ListsOf(all) == old(ListsOf(all))[this := []][newVal := old(newVal.useList + useList)]
      ensures SlotsOf(all) == RedirectedSlots(old(SlotsOf(all)), all, this, newVal)
    {
      ghost var lists, slots := ListsOf(all), SlotsOf(all);
      EntriesInRange(lists, slots, {}, this);
      MoveAll(newVal, all);
      FullyRedirected(lists, slots, SlotsOf(all), all, all, this, newVal);
      SelectEvery(lists[this], all);
      MoveKeepsMirror(lists, slots, all, this, newVal);
      assert ListsOf(all) == lists[this := []][newVal := lists[newVal] + lists[this]] == MovedLists(lists, all, this, newVal);
    }

    /** One turn of the loop below: redirects the slot the entry names. */
    method MoveUse(use: Use, newVal: Value, ghost all: set<Value>, ghost slots: Slots, ghost uses: seq<Use>, ghost k: nat)
      requires this in all && newVal in all && newVal != this && k < |uses| && InRange(slots, uses) && use == uses[k]
      requires slots.Keys == all && PartlyRedirected(slots, SlotsOf(all), uses[..k], all, this, newVal)
      modifies use.user`operands, newVal`useList
      ensures newVal.useList == old(newVal.useList) + [use]
      ensures PartlyRedirected(slots, SlotsOf(all), uses[..k + 1], all, this, newVal)
    {
      RedirectOne(slots, SlotsOf(all), uses, k, all, this, newVal);
      use.user.Redirect(use.argNo, newVal, all);
    }

    method MoveAll(newVal: Value, ghost all: set<Value>)
      requires this in all && newVal in all && newVal != this && InRange(SlotsOf(all), useList)
      modifies all
      ensures useList == [] && newVal.useList == old(newVal.useList + useList)
      ensures forall v :: v in all && v != this && v != newVal ==> v.useList == old(v.useList)
      ensures PartlyRedirected(old(SlotsOf(all)), SlotsOf(all), old(useList), all, this, newVal)
    {
      ghost var uses, slots := useList, SlotsOf(all);
      for k := 0 to |useList|
        invariant useList == uses && newVal.useList == old(newVal.useList) + uses[..k]
        invariant forall v :: v in all && v != newVal ==> v.useList == old(v.useList)
        invariant PartlyRedirected(slots, SlotsOf(all), uses[..k], all, this, newVal)
      {
        MoveUse(useList[k], newVal, all, slots, uses, k);
        assert uses[..k + 1] == uses[..k] + [useList[k]];
      }
      assert uses[..|uses|] == uses;
      useList := [];
    }

    /** The same for the users a predicate chooses; the other entries stay in place. */
    method ReplaceUseWithWhen(newVal: Value, chosen: set<Value>, ghost all: set<Value>)
      requires this in all && newVal in all && newVal != this && Mirror(ListsOf(all), SlotsOf(all), {})
      modifies all
      ensures Mirror(ListsOf(all), SlotsOf(all), {})
      ensures ListsOf(all) == MovedLists(old(ListsOf(all)), chosen, this, newVal)
      ensures SlotsOf(all) == RedirectedSlots(old(SlotsOf(all)), chosen, this, newVal)
      ensures forall u :: u in all ==> |u.operands| == |old(u.operands)|
      ensures forall u, i :: u in all && 0 <= i < |u.operands| ==>
                u.operands[i] == if u in chosen && old(u.operands)[i] == this then newVal else old(u.operands)[i]
      ensures forall x :: multiset(useList)[x] == if x.user in chosen then 0 else multiset(old(useList))[x]
      ensures forall x :: multiset(newVal.useList)[x]
                       == multiset(old(newVal.useList))[x] + if x.user in chosen then multiset(old(useList))[x] else 0
    {
      ghost var lists, slots := ListsOf(all), SlotsOf(all);
      EntriesInRange(lists, slots, {}, this);
      MoveChosen(newVal, chosen, all);
      FullyRedirected(lists, slots, SlotsOf(all), all, chosen, this, newVal);
      MoveKeepsMirror(lists, slots, chosen, this, newVal);
      assert ListsOf(all) == MovedLists(lists, chosen, this, newVal);
      assert forall v :: v in all ==> v.operands == SlotsOf(all)[v] && old(v.operands) == slots[v];
      assert useList == ListsOf(all)[this] && newVal.useList == ListsOf(all)[newVal];
      SelectCounts(lists[this], chosen);
    }

    method MoveChosen(newVal: Value, chosen: set<Value>, ghost all: set<Value>)
      requires this in all && newVal in all && newVal != this && InRange(SlotsOf(all), useList)
      modifies all
      ensures useList == Select(old(useList), chosen, false)
      ensures newVal.useList == old(newVal.useList) + Select(old(useList), chosen, true)
      ensures forall v :: v in all && v != this && v != newVal ==> v.useList == old(v.useList)
      ensures PartlyRedirected(old(SlotsOf(all)), SlotsOf(all), old(useList), chosen, this, newVal)
    {
      ghost var uses, slots := useList, SlotsOf(all);
      var it: nat := 0;
      ghost var k: nat := 0;
      assert uses[..0] == [] && uses[0..] == uses;
      while it < |useList|
        invariant Passed(uses, chosen, k, useList, it) && newVal.useList == old(newVal.useList) + Select(uses[..k], chosen, true)
        invariant forall v :: v in all && v != this && v != newVal ==> v.useList == old(v.useList)
        invariant PartlyRedirected(slots, SlotsOf(all), uses[..k], chosen, this, newVal)
        decreases |uses| - k
      {
        PassedMore(uses, chosen, k, useList, it);
        SelectSnoc(uses, chosen, true, k);
        it := PassEntry(it, newVal, chosen, all, slots, uses, k);
        k := k + 1;
      }
      PassedAll(uses, chosen, k, useList, it);
    }

    /** One turn of the loop: steps over the entry, or redirects the slot it names and erases it. */
    method PassEntry(it: nat, newVal: Value, chosen: set<Value>, ghost all: set<Value>,
                     ghost slots: Slots, ghost uses: seq<Use>, ghost k: nat)
      returns (next: nat)
      requires this in all && newVal in all && newVal != this && k < |uses| && InRange(slots, uses)
      requires Passed(uses, chosen, k, useList, it) && it < |useList|
      requires slots.Keys == all && PartlyRedirected(slots, SlotsOf(all), uses[..k], chosen, this, newVal)
      modifies all
      ensures Passed(uses, chosen, k + 1, useList, next)
      ensures newVal.useList == old(newVal.useList) + if uses[k].user in chosen then [uses[k]] else []
      ensures forall v :: v in all && v != this && v != newVal ==> v.useList == old(v.useList)
      ensures PartlyRedirected(slots, SlotsOf(all), uses[..k + 1], chosen, this, newVal)
    {
      SelectAdvance(uses, chosen, k, useList, it);
      RedirectOne(slots, SlotsOf(all), uses, k, chosen, this, newVal);
      var use := useList[it];
      if use.user !in chosen {
        next := it + 1;
      } else {
        useList := useList[..it] + useList[it + 1..];
        use.user.Redirect(use.argNo, newVal, all);
        next := it;
      }
    }

    /** Withdraws the uses of a value about to be deleted from its operands' lists. */
    method RemoveUseOfOps(ghost all: set<Value>, ghost dead: set<Value>)
      requires this in all && this !in dead && Mirror(ListsOf(all), SlotsOf(all), dead)
      requires forall i :: 0 <= i < |operands| ==> operands[i] != null && operands[i] in all
      modifies set v | v in all :: v`useList
      ensures Mirror(ListsOf(all), SlotsOf(all), dead + {this})
      ensures SlotsOf(all) == old(SlotsOf(all))
    {
      DropFromAll(all);
      WithdrawKeepsMirror(old(ListsOf(all)), SlotsOf(all), dead, this, ListsOf(all));
    }

    method DropFromAll(ghost all: set<Value>)
      requires this in all && forall i :: 0 <= i < |operands| ==> operands[i] != null && operands[i] in all
      modifies set v | v in all :: v`useList
      ensures SlotsOf(all) == old(SlotsOf(all))
      ensures forall v :: v in all ==>
                v.useList == if v in operands then Select(old(v.useList), {this}, false) else old(v.useList)
    {
      for k := 0 to |operands|
        invariant forall v :: v in all ==>
                    v.useList == if v in operands[..k] then Select(old(v.useList), {this}, false) else old(v.useList)
      {
        var op := operands[k];
        assert operands[..k + 1] == operands[..k] + [op];
        SelectTwice(old(op.useList), {this});
        op.RemoveUse(this);
      }
      assert operands[..|operands|] == operands;
    }
  }

  predicate InRange(slots: Slots, uses: seq<Use>) {
    forall x :: x in uses ==> x.user in slots && x.argNo < |slots[x.user]|
  }

  lemma EntriesInRange(lists: Lists, slots: Slots, dead: set<Value>, v: Value)
    requires Mirror(lists, slots, dead) && v in lists
    ensures InRange(slots, lists[v])
  {
    EntriesAreSlots(lists, slots, dead, v);
    forall x | x in lists[v] ensures x.user in slots && x.argNo < |slots[x.user]| {
      assert Use(x.user, x.argNo) in lists[v];
    }
  }

  /** The slots that the given entries of chosen users name hold w instead of v. */
  ghost predicate PartlyRedirected(slots: Slots, slots': Slots, entries: seq<Use>, chosen: set<Value>, v: Value, w: Value) {
    && slots'.Keys == slots.Keys
    && (forall u :: u in slots ==> |slots'[u]| == |slots[u]|)
    && (forall u, i: nat :: u in slots && i < |slots[u]| ==>
          slots'[u][i] == if u in chosen && Use(u, i) in entries then w else slots[u][i])
  }

  lemma RedirectOne(slots: Slots, slots': Slots, entries: seq<Use>, k: nat, chosen: set<Value>, v: Value, w: Value)
    requires k < |entries| && PartlyRedirected(slots, slots', entries[..k], chosen, v, w) && InRange(slots, entries)
    ensures entries[k].user in slots' && entries[k].argNo < |slots'[entries[k].user]|
    ensures var e := entries[k];
            PartlyRedirected(slots, if e.user in chosen then slots'[e.user := slots'[e.user][e.argNo := w]] else slots',
                             entries[..k + 1], chosen, v, w)
  {
    var e := entries[k];
    assert e in entries && entries[..k + 1] == entries[..k] + [e];
  }

  lemma FullyRedirected(lists: Lists, slots: Slots, slots': Slots, all: set<Value>, chosen: set<Value>, v: Value, w: Value)
    requires Mirror(lists, slots, {}) && v in lists && all == slots.Keys
    requires PartlyRedirected(slots, slots', lists[v], chosen, v, w)
    ensures slots' == RedirectedSlots(slots, chosen, v, w)
  {
    EntriesAreSlots(lists, slots, {}, v);
    forall u | u in slots ensures slots'[u] == if u in chosen then Redirected(slots[u], v, w) else slots[u] {}
  }
}
