// Numbering the locals of a method by use: Method.OptimizeLocals, and why no
// other numbering makes the accesses smaller.
module Locals {
  import opened Bytes
  import opened Opcodes
  import opened Instructions
  import opened Passes

  type Uses = map<LocalId, nat>

  // Operands among the first k instructions that are the local v.
  function CountTo(code: seq<Instr>, k: nat, v: LocalId): nat
    requires k <= |code|
  {
    if k == 0 then 0
    else CountTo(code, k - 1, v) + if code[k - 1].operand == LocalOperand(v) then 1 else 0
  }

  ghost predicate Distinct(locals: seq<LocalId>) {
    forall i, j :: 0 <= i < j < |locals| ==> locals[i] != locals[j]
  }

  ghost predicate Declared(code: seq<Instr>, locals: seq<LocalId>) {
    forall i :: 0 <= i < |code| && code[i].operand.LocalOperand? ==> code[i].operand.v in locals
  }

  predicate HasUses(locals: seq<LocalId>, uses: Uses) {
    forall v :: v in locals ==> v in uses
  }

  ghost predicate ByUse(locals: seq<LocalId>, uses: Uses)
    requires HasUses(locals, uses)
  {
    forall i, j :: 0 <= i < j < |locals| ==> uses[locals[i]] >= uses[locals[j]]
  }

  lemma SameMembers(a: seq<LocalId>, b: seq<LocalId>)
    requires multiset(a) == multiset(b)
    ensures |a| == |b|
    ensures forall v :: v in a <==> v in b
  {
    assert |multiset(a)| == |a| && |multiset(b)| == |b|;
    forall v ensures v in a <==> v in b {
      assert v in a <==> v in multiset(a);
      assert v in b <==> v in multiset(b);
    }
  }

  // ---- The numbering ----

  // Some order by falling number of uses; std::sort promises no more.
  method SortByUse(locals: seq<LocalId>, uses: Uses) returns (sorted: seq<LocalId>)
    requires HasUses(locals, uses)
    ensures multiset(sorted) == multiset(locals)
    ensures HasUses(sorted, uses) && ByUse(sorted, uses)
  {
    sorted := [];
    var i := 0;
    while i < |locals|
      invariant i <= |locals| && multiset(sorted) == multiset(locals[..i])
      invariant HasUses(sorted, uses) && ByUse(sorted, uses)
    {
      var j := FindPlace(sorted, uses, uses[locals[i]]);
      Inserted(sorted, uses, j, locals[i]);
      sorted := sorted[..j] + [locals[i]] + sorted[j..];
      assert locals[..i + 1] == locals[..i] + [locals[i]];
      i := i + 1;
    }
    assert locals[..i] == locals;
  }

  method FindPlace(sorted: seq<LocalId>, uses: Uses, n: nat) returns (j: nat)
    requires HasUses(sorted, uses) && ByUse(sorted, uses)
    ensures j <= |sorted|
    ensures forall k :: 0 <= k < j ==> uses[sorted[k]] >= n
    ensures forall k :: j <= k < |sorted| ==> uses[sorted[k]] < n
  {
    j := 0;
    while j < |sorted| && uses[sorted[j]] >= n
      invariant j <= |sorted|
      invariant forall k :: 0 <= k < j ==> uses[sorted[k]] >= n
    {
      j := j + 1;
    }
  }

  lemma Inserted(s: seq<LocalId>, uses: Uses, j: nat, v: LocalId)
    requires HasUses(s, uses) && ByUse(s, uses) && j <= |s| && v in uses
    requires forall k :: 0 <= k < j ==> uses[s[k]] >= uses[v]
    requires forall k :: j <= k < |s| ==> uses[s[k]] <= uses[v]
    ensures var longer := s[..j] + [v] + s[j..];
            && multiset(longer) == multiset(s) + multiset{v}
            && HasUses(longer, uses) && ByUse(longer, uses)
  {
    InsertedMembers(s, j, v);
    var longer := s[..j] + [v] + s[j..];
    forall k | 0 <= k < |longer| ensures longer[k] == if k < j then s[k] else if k == j then v else s[k - 1] {
    }
    forall a, b | 0 <= a < b < |longer| ensures uses[longer[a]] >= uses[longer[b]] {
      if a != j && b != j {
        assert uses[s[if a < j then a else a - 1]] >= uses[s[if b < j then b else b - 1]];
      }
    }
  }

  lemma InsertedMembers(s: seq<LocalId>, j: nat, v: LocalId)
    requires j <= |s|
    ensures multiset(s[..j] + [v] + s[j..]) == multiset(s) + multiset{v}
    ensures forall w :: w in s[..j] + [v] + s[j..] ==> w in s || w == v
  {
    assert s == s[..j] + s[j..];
  }

  method CountUses(code: seq<Instr>, locals: seq<LocalId>, before: Uses) returns (uses: Uses)
    requires Declared(code, locals) && HasUses(locals, before)
    ensures HasUses(locals, uses)
    ensures forall v :: v in locals ==> uses[v] == before[v] + CountTo(code, |code|, v)
  {
    hide TableRow;
    uses := before;
    var i := 0;
    while i < |code|
      invariant i <= |code| && HasUses(locals, uses)
      invariant forall v :: v in locals ==> uses[v] == before[v] + CountTo(code, i, v)
    {
      if code[i].operand.LocalOperand? {
        var v := code[i].operand.v;
        uses := uses[v := uses[v] + 1];
      }
      i := i + 1;
    }
  }

  // Each local's number is where it stands.
  ghost predicate Numbered(locals: seq<LocalId>, slots: Slots) {
    && slots.Keys == (set v | v in locals)
    && forall v :: v in slots ==> slots[v] < |locals| && locals[slots[v]] == v
  }

  method Number(locals: seq<LocalId>) returns (slots: Slots)
    ensures Numbered(locals, slots)
  {
    slots := map[];
    var index := 0;
    while index < |locals|
      invariant index <= |locals|
      invariant slots.Keys == set v | v in locals[..index]
      invariant forall v :: v in slots ==> slots[v] < index && locals[slots[v]] == v
    {
      slots := slots[locals[index] := index];
      index := index + 1;
    }
    assert locals[..index] == locals;
  }

  // ---- The size of the accesses ----

  // Encoded size of ldloc or stloc of a slot, and of ldloca.
  function SlotCost(slot: nat): nat {
    if slot < 4 then 1 else if slot < 128 then 2 else 4
  }

  function AddressCost(slot: nat): nat {
    if slot < 128 then 2 else 4
  }

  // Bytes the accesses among the first k instructions take after OptimizeLDLOC.
  function AccessBytes(code: seq<Instr>, slots: Slots, k: nat): nat
    requires k <= |code| && LocalsHaveSlots(code, slots)
  {
    if k == 0 then 0
    else AccessBytes(code, slots, k - 1)
         + if code[k - 1].operand.LocalOperand? then Size(LocalShort(code[k - 1], slots)) else 0
  }

  lemma AccessSize(i: Instr, slots: Slots)
    requires i.operand.LocalOperand? && i.operand.v in slots
    ensures i.op == LDLOC || i.op == STLOC ==> Size(LocalShort(i, slots)) == SlotCost(slots[i.operand.v])
    ensures i.op == LDLOCA ==> Size(LocalShort(i, slots)) == AddressCost(slots[i.operand.v])
    ensures i.op != LDLOC && i.op != STLOC && i.op != LDLOCA ==> LocalShort(i, slots) == i
  {
  }

  // Among the first k instructions: loads and stores of v in the general
  // form, and these together with ldloca. Other forms do not depend on slots.
  function LoadsTo(code: seq<Instr>, k: nat, v: LocalId): nat
    requires k <= |code|
  {
    if k == 0 then 0
    else
      var i := code[k - 1];
      LoadsTo(code, k - 1, v) + if i.operand == LocalOperand(v) && (i.op == LDLOC || i.op == STLOC) then 1 else 0
  }

  function WeightTo(code: seq<Instr>, k: nat, v: LocalId): nat
    requires k <= |code|
  {
    if k == 0 then 0
    else
      var i := code[k - 1];
      WeightTo(code, k - 1, v)
      + if i.operand == LocalOperand(v) && (i.op == LDLOC || i.op == STLOC || i.op == LDLOCA) then 1 else 0
  }

  function FixedTo(code: seq<Instr>, k: nat): nat
    requires k <= |code|
  {
    if k == 0 then 0
    else
      var i := code[k - 1];
      FixedTo(code, k - 1)
      + if i.operand.LocalOperand? && i.op != LDLOC && i.op != STLOC && i.op != LDLOCA then Size(i) else 0
  }

  // What a local is accessed how often: loads and stores, and all together.
  datatype Access = Access(loads: nat, weight: nat)

  function AccessOf(code: seq<Instr>, k: nat, v: LocalId): Access
    requires k <= |code|
  {
    Access(LoadsTo(code, k, v), WeightTo(code, k, v))
  }

  function AccessesOf(code: seq<Instr>, k: nat, locals: seq<LocalId>): (accesses: seq<Access>)
    requires k <= |code|
    ensures |accesses| == |locals|
  {
    seq(|locals|, i requires 0 <= i < |locals| => AccessOf(code, k, locals[i]))
  }

  // A slot below 4 saves a byte for each load or store.
  function CostAt(a: Access, slot: nat): int {
    a.weight * AddressCost(slot) - if slot < 4 then a.loads else 0
  }

  function Total(accesses: seq<Access>, at: seq<nat>): int
    requires |at| == |accesses|
  {
    if accesses == [] then 0
    else
      var n := |accesses| - 1;
      Total(accesses[..n], at[..n]) + CostAt(accesses[n], at[n])
  }

  function SlotsAt(locals: seq<LocalId>, slots: Slots): (at: seq<nat>)
    requires forall v :: v in locals ==> v in slots
    ensures |at| == |locals|
  {
    seq(|locals|, i requires 0 <= i < |locals| => slots[locals[i]])
  }

  lemma {:induction false} OneAccessMore(before: seq<Access>, after: seq<Access>, at: seq<nat>, j: nat)
    requires |before| == |after| == |at| && j < |before|
    requires forall i :: 0 <= i < |before| && i != j ==> after[i] == before[i]
    ensures Total(after, at) == Total(before, at) + CostAt(after[j], at[j]) - CostAt(before[j], at[j])
  {
    hide CostAt;
    var n := |before| - 1;
    if j == n {
      assert after[..n] == before[..n];
    } else {
      OneAccessMore(before[..n], after[..n], at[..n], j);
    }
  }

  lemma {:induction false} NoAccesses(accesses: seq<Access>, at: seq<nat>)
    requires |at| == |accesses| && forall i :: 0 <= i < |accesses| ==> accesses[i] == Access(0, 0)
    ensures Total(accesses, at) == 0
  {
    if accesses != [] {
      NoAccesses(accesses[..|accesses| - 1], at[..|accesses| - 1]);
    }
  }

  // Adding up along the code and adding up over the locals agree.
  lemma {:induction false} AccessesByLocal(code: seq<Instr>, locals: seq<LocalId>, slots: Slots, k: nat)
    requires k <= |code| && Declared(code, locals) && Distinct(locals)
    requires LocalsHaveSlots(code, slots) && forall v :: v in locals ==> v in slots
    ensures AccessBytes(code, slots, k) == Total(AccessesOf(code, k, locals), SlotsAt(locals, slots)) + FixedTo(code, k)
  {
    hide TableRow, Total, Size, LocalShort;
    var at := SlotsAt(locals, slots);
    if k == 0 {
      NoAccesses(AccessesOf(code, 0, locals), at);
    } else {
      AccessesByLocal(code, locals, slots, k - 1);
      var before, after := AccessesOf(code, k - 1, locals), AccessesOf(code, k, locals);
      if code[k - 1].operand.LocalOperand? {
        var j :| 0 <= j < |locals| && locals[j] == code[k - 1].operand.v;
        AccessSize(code[k - 1], slots);
        OneAccessMore(before, after, at, j);
        OneMoreCost(before[j], after[j].loads, at[j]);
      } else {
        assert after == before;
      }
    }
  }

  lemma OneMoreCost(a: Access, loads: nat, slot: nat)
    ensures CostAt(Access(loads, a.weight + 1), slot)
         == CostAt(a, slot) + AddressCost(slot) - if slot < 4 then loads - a.loads else 0
    ensures SlotCost(slot) == AddressCost(slot) - if slot < 4 then 1 else 0
  {
    assert (a.weight + 1) * AddressCost(slot) == a.weight * AddressCost(slot) + AddressCost(slot);
  }

  // ---- Numberings ----

  ghost predicate Injective(at: seq<nat>) {
    forall i, j :: 0 <= i < j < |at| ==> at[i] != at[j]
  }

  function Identity(n: nat): (at: seq<nat>)
    ensures |at| == n
  {
    seq(n, i => i)
  }

  function Firsts(n: nat): (s: set<nat>)
    ensures |s| == n
    ensures forall i: nat :: i in s <==> i < n
  {
    if n == 0 then {} else Firsts(n - 1) + {n - 1}
  }

  lemma {:induction false} ManySlots(at: seq<nat>)
    requires Injective(at)
    ensures |set i | 0 <= i < |at| :: at[i]| == |at|
  {
    if |at| > 0 {
      var n := |at| - 1;
      ManySlots(at[..n]);
      assert (set i | 0 <= i < |at| :: at[i]) == (set i | 0 <= i < n :: at[..n][i]) + {at[n]};
    }
  }

  // Among n distinct slots one is n - 1 or more.
  lemma SomeHighSlot(at: seq<nat>) returns (j: nat)
    requires Injective(at) && |at| > 0
    ensures j < |at| && at[j] >= |at| - 1
  {
    var n := |at| - 1;
    if forall i :: 0 <= i < |at| ==> at[i] < n {
      ManySlots(at);
      var used := set i | 0 <= i < |at| :: at[i];
      assert used <= Firsts(n);
      Smaller(used, Firsts(n));
      assert false;
    }
    j :| 0 <= j < |at| && at[j] >= n;
  }

  lemma {:induction false} Smaller(a: set<nat>, b: set<nat>)
    requires a <= b
    ensures |a| <= |b|
  {
    if a != {} {
      var x :| x in a;
      Smaller(a - {x}, b - {x});
    }
  }

  lemma {:induction false} TotalUpdate(accesses: seq<Access>, at: seq<nat>, j: nat, slot: nat)
    requires |at| == |accesses| && j < |accesses|
    ensures Total(accesses, at[j := slot]) == Total(accesses, at) + CostAt(accesses[j], slot) - CostAt(accesses[j], at[j])
  {
    hide CostAt;
    var n := |accesses| - 1;
    if j == n {
      assert at[j := slot][..n] == at[..n];
    } else {
      assert at[j := slot][..n] == at[..n][j := slot];
      TotalUpdate(accesses[..n], at[..n], j, slot);
    }
  }

  // ---- When a numbering is optimal ----

  // No exchange of two or three locals between the slots below 4, those below
  // 128 and the rest saves a byte.
  ghost predicate NoExchangeSaves(a: seq<Access>) {
    && (forall i, k :: 0 <= i < 4 <= k < 128 && k < |a| ==> NearMid(a[i], a[k]))
    && (forall k, j :: 4 <= k < 128 <= j < |a| ==> MidFar(a[k], a[j]))
    && (forall i, j :: 0 <= i < 4 && 128 <= j < |a| ==> NearFar(a[i], a[j]))
    && (forall i, k, j :: 0 <= i < 4 <= k < 128 <= j < |a| ==> AllThree(a[i], a[k], a[j]))
  }

  predicate NearMid(near: Access, mid: Access) { mid.loads <= near.loads }

  predicate MidFar(mid: Access, far: Access) { far.weight <= mid.weight }

  predicate NearFar(near: Access, far: Access) { 2 * far.weight + far.loads <= 2 * near.weight + near.loads }

  predicate AllThree(near: Access, mid: Access, far: Access) {
    && 2 * far.weight + far.loads <= near.loads + 2 * mid.weight
    && 2 * far.weight + mid.loads <= 2 * near.weight + near.loads
  }

  // What a slot is worth: less and less from one range to the next.
  function Price(near: nat, mid: nat, slot: nat): nat {
    if slot < 4 then near + mid else if slot < 128 then mid else 0
  }

  function Paid(near: nat, mid: nat, at: seq<nat>): nat {
    if at == [] then 0 else Paid(near, mid, at[..|at| - 1]) + Price(near, mid, at[|at| - 1])
  }

  lemma {:induction false} PaidUpdate(near: nat, mid: nat, at: seq<nat>, j: nat, slot: nat)
    requires j < |at|
    ensures Paid(near, mid, at[j := slot]) == Paid(near, mid, at) + Price(near, mid, slot) - Price(near, mid, at[j])
  {
    hide Price;
    var n := |at| - 1;
    if j == n {
      assert at[j := slot][..n] == at[..n];
    } else {
      assert at[j := slot][..n] == at[..n][j := slot];
      PaidUpdate(near, mid, at[..n], j, slot);
    }
  }

  // No n distinct slots are worth more than the first n.
  lemma {:induction false} FirstsAreWorthMost(near: nat, mid: nat, at: seq<nat>)
    requires Injective(at)
    ensures Paid(near, mid, at) <= Paid(near, mid, Identity(|at|))
    decreases |at|
  {
    hide Price;
    if at != [] {
      var n := |at| - 1;
      var j := SomeHighSlot(at);
      var moved := at[j := at[n]][n := at[j]];
      PaidUpdate(near, mid, at, j, at[n]);
      PaidUpdate(near, mid, at[j := at[n]], n, at[j]);
      FirstsAreWorthMost(near, mid, moved[..n]);
      assert Identity(n + 1)[..n] == Identity(n);
      PriceFalls(near, mid, n, moved[n]);
    }
  }

  lemma PriceFalls(near: nat, mid: nat, a: nat, b: nat)
    requires a <= b
    ensures Price(near, mid, b) <= Price(near, mid, a)
  {
  }

  // At these prices no local wants another range than that of its number.
  ghost predicate Content(a: seq<Access>, near: nat, mid: nat) {
    forall i, slot: nat {:trigger CostAt(a[i], slot)} :: 0 <= i < |a| ==>
      CostAt(a[i], i) + Price(near, mid, i) <= CostAt(a[i], slot) + Price(near, mid, slot)
  }

  lemma {:induction false} ContentIsOptimal(a: seq<Access>, near: nat, mid: nat, at: seq<nat>)
    requires Content(a, near, mid) && |at| == |a|
    ensures Total(a, Identity(|a|)) + Paid(near, mid, Identity(|a|)) <= Total(a, at) + Paid(near, mid, at)
  {
    hide CostAt, Price;
    if a != [] {
      var n := |a| - 1;
      ContentIsOptimal(a[..n], near, mid, at[..n]);
      assert Identity(n + 1)[..n] == Identity(n);
      assert CostAt(a[n], n) + Price(near, mid, n) <= CostAt(a[n], at[n]) + Price(near, mid, at[n]);
    }
  }

  // Where a value is greatest, or least, among those from lo to hi.
  lemma {:induction false} Greatest(values: seq<int>, lo: nat, hi: nat) returns (g: nat)
    requires lo < hi <= |values|
    ensures lo <= g < hi && forall i :: lo <= i < hi ==> values[i] <= values[g]
    decreases hi
  {
    if hi == lo + 1 {
      g := lo;
    } else {
      g := Greatest(values, lo, hi - 1);
      if values[hi - 1] > values[g] { g := hi - 1; }
    }
  }

  lemma ContentAt(x: Access, i: nat, slot: nat, near: nat, mid: nat)
    requires i < 4 ==> near <= x.loads && near + mid <= 2 * x.weight + x.loads
    requires 4 <= i < 128 ==> x.loads <= near && mid <= 2 * x.weight
    requires 128 <= i ==> 2 * x.weight <= mid && 2 * x.weight + x.loads <= near + mid
    ensures CostAt(x, i) + Price(near, mid, i) <= CostAt(x, slot) + Price(near, mid, slot)
  {
  }

  // There are such prices when no exchange saves anything.
  lemma PricesExist(a: seq<Access>) returns (near: nat, mid: nat)
    requires NoExchangeSaves(a)
    ensures Content(a, near, mid)
  {
    hide CostAt, Price;
    near, mid := 0, 0;
    if |a| > 4 {
      var lost: seq<int> := seq(|a|, i requires 0 <= i < |a| => -(a[i].loads as int));
      var poor := Greatest(lost, 0, 4);
      near := a[poor].loads;
      forall i | 0 <= i < 4 ensures near <= a[i].loads { assert lost[i] <= lost[poor]; }
      if |a| > 128 {
        near, mid := PricesOfThree(a, near);
      }
    }
    forall i, slot: nat | 0 <= i < |a|
      ensures CostAt(a[i], i) + Price(near, mid, i) <= CostAt(a[i], slot) + Price(near, mid, slot)
    {
      ContentAt(a[i], i, slot, near, mid);
    }
  }

  lemma PricesOfThree(a: seq<Access>, least: nat) returns (near: nat, mid: nat)
    requires NoExchangeSaves(a) && |a| > 128
    requires forall i :: 0 <= i < 4 ==> least <= a[i].loads
    requires exists i :: 0 <= i < 4 && a[i].loads == least
    ensures forall i :: 0 <= i < 4 ==> near <= a[i].loads && near + mid <= 2 * a[i].weight + a[i].loads
    ensures forall i :: 4 <= i < 128 ==> a[i].loads <= near && mid <= 2 * a[i].weight
    ensures forall i :: 128 <= i < |a| ==> 2 * a[i].weight <= mid && 2 * a[i].weight + a[i].loads <= near + mid
  {
    hide NoExchangeSaves;
    var weights := seq(|a|, i requires 0 <= i < |a| => 2 * a[i].weight);
    var gains := seq(|a|, i requires 0 <= i < |a| => 2 * a[i].weight + a[i].loads);
    var losses: seq<int> := seq(|a|, i requires 0 <= i < |a| => -gains[i]);
    var heavy := Greatest(weights, 128, |a|);
    var high := Greatest(gains, 128, |a|);
    var low := Greatest(losses, 0, 4);
    var floor, top, bottom := weights[heavy], gains[high], gains[low];
    forall i | 0 <= i < 4 ensures bottom <= 2 * a[i].weight + a[i].loads { assert losses[i] <= losses[low]; }
    forall i | 128 <= i < |a| ensures 2 * a[i].weight <= floor && 2 * a[i].weight + a[i].loads <= top {
      assert weights[i] <= floor && gains[i] <= top;
    }
    var poor :| 0 <= poor < 4 && a[poor].loads == least;
    Limits(a, low, 4, heavy);
    near := if bottom - floor < least then bottom - floor else least;
    mid := if top - near > floor then top - near else floor;
    forall k | 4 <= k < 128 ensures a[k].loads <= near && mid <= 2 * a[k].weight {
      Limits(a, low, k, heavy);
      Limits(a, low, k, high);
      Limits(a, poor, k, high);
    }
    Limits(a, low, 4, high);
  }

  lemma Limits(a: seq<Access>, i: nat, k: nat, j: nat)
    requires NoExchangeSaves(a) && i < 4 <= k < 128 <= j < |a|
    ensures a[k].loads <= a[i].loads && a[j].weight <= a[k].weight
    ensures 2 * a[j].weight + a[j].loads <= 2 * a[i].weight + a[i].loads
    ensures 2 * a[j].weight + a[j].loads <= a[i].loads + 2 * a[k].weight
    ensures 2 * a[j].weight + a[k].loads <= 2 * a[i].weight + a[i].loads
  {
  }

  ghost predicate Better(a: seq<Access>, at: seq<nat>) {
    |at| == |a| && Injective(at) && Total(a, at) < Total(a, Identity(|a|))
  }

  // An exchange that saves something makes a better numbering.
  lemma BetterSlots(a: seq<Access>) returns (at: seq<nat>)
    requires !NoExchangeSaves(a)
    ensures Better(a, at)
  {
    hide NearMid, MidFar, NearFar, AllThree, Better;
    if i, k :| 0 <= i < 4 <= k < 128 && k < |a| && !NearMid(a[i], a[k]) {
      at := Swapped(a, i, k);
    } else if k, j :| 4 <= k < 128 <= j < |a| && !MidFar(a[k], a[j]) {
      at := Swapped(a, k, j);
    } else if i, j :| 0 <= i < 4 && 128 <= j < |a| && !NearFar(a[i], a[j]) {
      at := Swapped(a, i, j);
    } else {
      var i, k, j :| 0 <= i < 4 <= k < 128 <= j < |a| && !AllThree(a[i], a[k], a[j]);
      at := Rotated(a, i, k, j);
    }
  }

  lemma SwapSaves(x: Access, y: Access, i: nat, j: nat)
    requires i < j
    requires (i < 4 <= j < 128 && !NearMid(x, y)) || (4 <= i < 128 <= j && !MidFar(x, y)) || (i < 4 && 128 <= j && !NearFar(x, y))
    ensures CostAt(x, j) + CostAt(y, i) < CostAt(x, i) + CostAt(y, j)
  {
  }

  lemma Swapped(a: seq<Access>, i: nat, j: nat) returns (at: seq<nat>)
    requires i < j < |a|
    requires (i < 4 <= j < 128 && !NearMid(a[i], a[j])) || (4 <= i < 128 <= j && !MidFar(a[i], a[j]))
             || (i < 4 && 128 <= j && !NearFar(a[i], a[j]))
    ensures Better(a, at)
  {
    SwapSaves(a[i], a[j], i, j);
    hide CostAt, Total, NearMid, MidFar, NearFar;
    var first: seq<nat> := Identity(|a|);
    at := first[i := j][j := i];
    TotalUpdate(a, first, i, j);
    TotalUpdate(a, first[i := j], j, i);
  }

  lemma Rotated(a: seq<Access>, i: nat, k: nat, j: nat) returns (at: seq<nat>)
    requires i < 4 <= k < 128 <= j < |a| && !AllThree(a[i], a[k], a[j])
    ensures Better(a, at)
  {
    hide Total;
    var first: seq<nat> := Identity(|a|);
    if 2 * a[j].weight + a[j].loads > a[i].loads + 2 * a[k].weight {
      at := first[i := k][k := j][j := i];
      TotalUpdate(a, first, i, k);
      TotalUpdate(a, first[i := k], k, j);
      TotalUpdate(a, first[i := k][k := j], j, i);
    } else {
      at := first[i := j][j := k][k := i];
      TotalUpdate(a, first, i, j);
      TotalUpdate(a, first[i := j], j, k);
      TotalUpdate(a, first[i := j][j := k], k, i);
    }
  }

  // Another way to give the locals distinct slots.
  ghost predicate Rival(code: seq<Instr>, locals: seq<LocalId>, other: Slots) {
    && LocalsHaveSlots(code, other) && (forall v :: v in locals ==> v in other)
    && forall v, w :: v in other && w in other && v != w ==> other[v] != other[w]
  }

  // The order of the locals is an optimal numbering of any body exactly when
  // no exchange saves a byte.
  lemma NumberingIsOptimalIff(code: seq<Instr>, locals: seq<LocalId>, slots: Slots)
    requires Declared(code, locals) && Distinct(locals) && Numbered(locals, slots)
    ensures LocalsHaveSlots(code, slots)
    ensures (forall other: Slots :: Rival(code, locals, other) ==> AccessBytes(code, slots, |code|) <= AccessBytes(code, other, |code|))
            <==> NoExchangeSaves(AccessesOf(code, |code|, locals))
  {
    hide TableRow, Total, AccessBytes, AccessOf, NoExchangeSaves;
    var a := AccessesOf(code, |code|, locals);
    AccessesByLocal(code, locals, slots, |code|);
    assert SlotsAt(locals, slots) == Identity(|locals|);
    if NoExchangeSaves(a) {
      forall other: Slots | Rival(code, locals, other)
        ensures AccessBytes(code, slots, |code|) <= AccessBytes(code, other, |code|)
      {
        AccessesByLocal(code, locals, other, |code|);
        OptimalIfNoExchange(a, SlotsAt(locals, other));
      }
    } else {
      var at := BetterSlots(a);
      var other := RivalOf(code, locals, slots, at);
      AccessesByLocal(code, locals, other, |code|);
    }
  }

  lemma OptimalIfNoExchange(a: seq<Access>, at: seq<nat>)
    requires NoExchangeSaves(a) && |at| == |a| && Injective(at)
    ensures Total(a, Identity(|a|)) <= Total(a, at)
  {
    hide Total, CostAt, Price, Paid, NoExchangeSaves;
    var near, mid := PricesExist(a);
    ContentIsOptimal(a, near, mid, at);
    FirstsAreWorthMost(near, mid, at);
  }

  lemma RivalOf(code: seq<Instr>, locals: seq<LocalId>, slots: Slots, at: seq<nat>) returns (other: Slots)
    requires Declared(code, locals) && Distinct(locals) && Numbered(locals, slots)
    requires |at| == |locals| && Injective(at)
    ensures Rival(code, locals, other) && SlotsAt(locals, other) == at
  {
    hide TableRow;
    other := map v | v in slots :: at[slots[v]];
  }

  // For a body that only loads and stores its locals, no numbering of them
  // makes the accesses shorter than the one by falling number of uses.
  lemma NumberingIsOptimal(code: seq<Instr>, locals: seq<LocalId>, slots: Slots, other: Slots)
    requires Declared(code, locals) && Distinct(locals) && OnlyLoadsAndStores(code)
    requires ByUse(locals, Counts(code, |code|, locals)) && Numbered(locals, slots)
    requires Rival(code, locals, other)
    ensures LocalsHaveSlots(code, slots)
    ensures AccessBytes(code, slots, |code|) <= AccessBytes(code, other, |code|)
  {
    hide TableRow, AccessBytes, AccessOf, CountTo, Rival, NoExchangeSaves;
    var a := AccessesOf(code, |code|, locals);
    var counts := Counts(code, |code|, locals);
    forall i: nat | i < |a| ensures a[i].loads == a[i].weight == counts[locals[i]] {
      OnlyLoads(code, |code|, locals[i]);
    }
    SortedLoads(a);
    NumberingIsOptimalIff(code, locals, slots);
  }

  lemma SortedLoads(a: seq<Access>)
    requires forall i :: 0 <= i < |a| ==> a[i].loads == a[i].weight
    requires forall i, j :: 0 <= i < j < |a| ==> a[i].weight >= a[j].weight
    ensures NoExchangeSaves(a)
  {
  }

  predicate OnlyLoadsAndStores(code: seq<Instr>) {
    forall i :: 0 <= i < |code| && code[i].operand.LocalOperand? ==> code[i].op == LDLOC || code[i].op == STLOC
  }

  ghost function Counts(code: seq<Instr>, k: nat, locals: seq<LocalId>): Uses
    requires k <= |code|
  {
    map v | v in locals :: CountTo(code, k, v)
  }

  lemma {:induction false} OnlyLoads(code: seq<Instr>, k: nat, v: LocalId)
    requires k <= |code| && OnlyLoadsAndStores(code)
    ensures AccessOf(code, k, v) == Access(CountTo(code, k, v), CountTo(code, k, v))
  {
    hide TableRow;
    if k > 0 { OnlyLoads(code, k - 1, v); }
  }

  // With at most 128 locals it comes down to the loads and stores: those of
  // the first four are the most frequent.
  lemma UpTo128Locals(code: seq<Instr>, locals: seq<LocalId>, slots: Slots)
    requires Declared(code, locals) && Distinct(locals) && Numbered(locals, slots) && |locals| <= 128
    ensures LocalsHaveSlots(code, slots)
    ensures (forall other: Slots :: Rival(code, locals, other) ==> AccessBytes(code, slots, |code|) <= AccessBytes(code, other, |code|))
            <==> forall i, k :: 0 <= i < 4 <= k < |locals| ==> LoadsTo(code, |code|, locals[k]) <= LoadsTo(code, |code|, locals[i])
  {
    hide TableRow, AccessBytes, LoadsTo, WeightTo, Rival;
    NumberingIsOptimalIff(code, locals, slots);
    var a := AccessesOf(code, |code|, locals);
    assert forall i :: 0 <= i < |locals| ==> a[i].loads == LoadsTo(code, |code|, locals[i]);
  }

  // ---- Where the numbering is not optimal ----

  function Accessing(op: Opcode, v: LocalId): Instr {
    Instr(op, LocalOperand(v), [], SehTry, false, 0, 0, true)
  }

  // The address of local 0 is taken twice; locals 1 to 4 are loaded once each.
  function AddressTaken(): seq<Instr> {
    [Accessing(LDLOCA, 0), Accessing(LDLOCA, 0), Accessing(LDLOC, 1), Accessing(LDLOC, 2), Accessing(LDLOC, 3), Accessing(LDLOC, 4)]
  }

  // ldloca has no one-byte form, so counting it like a load wastes a slot.
  lemma AddressesSpoilNumbering()
    ensures var code, locals := AddressTaken(), [0, 1, 2, 3, 4];
            var slots: Slots := map[0 := 0, 1 := 1, 2 := 2, 3 := 3, 4 := 4];
            var other: Slots := map[0 := 4, 1 := 1, 2 := 2, 3 := 3, 4 := 0];
            && Declared(code, locals) && Distinct(locals) && Numbered(locals, slots)
            && ByUse(locals, Counts(code, |code|, locals))
            && LocalsHaveSlots(code, slots) && LocalsHaveSlots(code, other)
            && AccessBytes(code, slots, |code|) == 9 && AccessBytes(code, other, |code|) == 8
  {
    hide TableRow, Size, LocalShort, AccessBytes, CountTo;
    var code, locals := AddressTaken(), [0, 1, 2, 3, 4];
    var slots: Slots := map[0 := 0, 1 := 1, 2 := 2, 3 := 3, 4 := 4];
    var other: Slots := map[0 := 4, 1 := 1, 2 := 2, 3 := 3, 4 := 0];
    CountsHere(code);
    BytesHere(code, slots);
    BytesHere(code, other);
  }

  lemma CountsHere(code: seq<Instr>)
    requires code == AddressTaken()
    ensures CountTo(code, 6, 0) == 2
    ensures forall v: nat :: 1 <= v < 5 ==> CountTo(code, 6, v) == 1
  {
    hide TableRow;
    forall v: nat | v < 5 ensures CountTo(code, 6, v) == if v == 0 then 2 else 1 {
      assert CountTo(code, 1, v) == if v == 0 then 1 else 0;
      assert CountTo(code, 2, v) == if v == 0 then 2 else 0;
      assert CountTo(code, 3, v) == if v == 0 then 2 else if v == 1 then 1 else 0;
      assert CountTo(code, 4, v) == if v == 0 then 2 else if v <= 2 then 1 else 0;
      assert CountTo(code, 5, v) == if v == 0 then 2 else if v <= 3 then 1 else 0;
    }
  }

  lemma BytesHere(code: seq<Instr>, slots: Slots)
    requires code == AddressTaken() && LocalsHaveSlots(code, slots)
    requires {0, 1, 2, 3, 4} <= slots.Keys && slots[0] < 128
    ensures AccessBytes(code, slots, 6)
         == 4 + SlotCost(slots[1]) + SlotCost(slots[2]) + SlotCost(slots[3]) + SlotCost(slots[4])
  {
    hide TableRow, Size, LocalShort, AccessBytes;
    AccessSize(code[0], slots);
    StepHere(code, slots, 1);
    StepHere(code, slots, 2);
    StepHere(code, slots, 3);
    AccessSize(code[2], slots);
    StepHere(code, slots, 4);
    AccessSize(code[3], slots);
    StepHere(code, slots, 5);
    AccessSize(code[4], slots);
    StepHere(code, slots, 6);
    AccessSize(code[5], slots);
    Nothing(code, slots);
  }

  lemma StepHere(code: seq<Instr>, slots: Slots, k: nat)
    requires 0 < k <= |code| && LocalsHaveSlots(code, slots) && code[k - 1].operand.LocalOperand?
    ensures AccessBytes(code, slots, k) == AccessBytes(code, slots, k - 1) + Size(LocalShort(code[k - 1], slots))
  {
    hide TableRow, Size, LocalShort;
  }

  lemma Nothing(code: seq<Instr>, slots: Slots)
    requires LocalsHaveSlots(code, slots)
    ensures AccessBytes(code, slots, 0) == 0
  {
  }
}
