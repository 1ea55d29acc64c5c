/**
 * The memory-access helpers of the counter feature sets: the OpenCL view of
 * address spaces and the coalesced-access estimate `getCoalescedMemAccess`.
 */
module MemAccess {
  import opened Ir
  import opened LlvmHelper

  /**
   * `get_cl_address_space_type`: ids 0 to 5 name the six OpenCL spaces in
   * enum order and every other id is generic, exactly as the cost-relation
   * helper numbers them.
   */
  function ClAddressSpaceType(addrSpaceId: nat): (t: OpenclAddressSpaceType)
    ensures addrSpaceId <= 5 ==> AddrSpaceId(t) == addrSpaceId
    ensures addrSpaceId > 5 ==> t == Generic
    ensures t == OpenclAddrSpaceType(addrSpaceId)
  {
    match addrSpaceId
    case 0 => Generic
    case 1 => Global
    case 2 => Region
    case 3 => Local
    case 4 => Constant
    case 5 => Private
    case _ => Generic
  }

  /** As written, `isGlobalMemoryAccess` holds for the OpenCL local space. */
  function IsGlobalMemoryAccess(addrSpaceId: nat): (b: bool)
    ensures b <==> addrSpaceId == 3
  {
    ClAddressSpaceType(addrSpaceId) == Local
  }

  /** As written, `isLocalMemoryAccess` holds for the OpenCL global space. */
  function IsLocalMemoryAccess(addrSpaceId: nat): (b: bool)
    ensures b <==> addrSpaceId == 1
  {
    ClAddressSpaceType(addrSpaceId) == Global
  }

  /** As written, `isConstantMemoryAccess` also holds for the OpenCL global space. */
  function IsConstantMemoryAccess(addrSpaceId: nat): (b: bool)
    ensures b <==> addrSpaceId == 1
  {
    ClAddressSpaceType(addrSpaceId) == Global
  }

  datatype CoalescedMemAccess = CoalescedMemAccess(memAccess: nat, memCoalesced: nat)

  /** `x` is a user of one of the pointer arguments among `args`. */
  predicate UsesPointerArg(args: seq<Argument>, x: Instruction) {
    exists a | a in args :: a.isPointer && ArgRef(a.id) in x.operands
  }

  /** Steps 1 and 2: the set of GEPs that use a pointer argument directly. */
  function GepSet(f: Function): set<Instruction> {
    set x | x in Instrs(f.blocks) && IsGep(x) && UsesPointerArg(f.args, x)
  }

  /** `gep->getOperand(1) == v`: the first index of the GEP is `v`. */
  predicate FirstIndexIs(g: Instruction, v: Operand) {
    |g.operands| >= 2 && g.operands[1] == v
  }

  /** The first index of the GEP is a `ConstantInt`. */
  predicate ConstantFirstIndex(g: Instruction) {
    |g.operands| >= 2 && g.operands[1].ConstInt?
  }

  /** The two tests the loops over `gep_set` apply. */
  datatype GepTest = IndexIs(v: Operand) | ConstantIndex

  predicate Passes(g: Instruction, t: GepTest) {
    match t
    case IndexIs(v) => FirstIndexIs(g, v)
    case ConstantIndex => ConstantFirstIndex(g)
  }

  /** How many GEPs of `geps` have `v` as their first index. */
  function IndexedBy(geps: set<Instruction>, v: Operand): nat {
    |set g | g in geps && FirstIndexIs(g, v)|
  }

  /**
   * Steps 4 and 5 for one call: for each use of the call (one per operand
   * slot of a user holding it), the GEPs indexed by the using instruction.
   */
  function UseHits(users: seq<Instruction>, call: Instruction, geps: set<Instruction>): nat {
    if users == [] then 0
    else
      var u := users[|users| - 1];
      UseHits(users[..|users| - 1], call, geps) + Occurrences(u.operands, InstRef(call.id)) * IndexedBy(geps, InstRef(u.id))
  }

  /** A call whose callee's identifier contains `get_global_id`. */
  predicate IsGlobalIdCall(x: Instruction) {
    x.opcode == "call" && x.callee.Some? && Contains(x.callee.value.identifier, "get_global_id")
  }

  /** Step 3 over the instructions `calls`, each user being looked up in `users`. */
  function GlobalIdHits(calls: seq<Instruction>, users: seq<Instruction>, geps: set<Instruction>): nat {
    if calls == [] then 0
    else
      var c := calls[|calls| - 1];
      GlobalIdHits(calls[..|calls| - 1], users, geps) + (if IsGlobalIdCall(c) then UseHits(users, c, geps) else 0)
  }

  /** The coalesced count: global-id indexed GEPs (step 5) plus constant-indexed GEPs (step 6). */
  function Coalesced(f: Function): nat {
    var all := Instrs(f.blocks);
    GlobalIdHits(all, all, GepSet(f)) + |set g | g in GepSet(f) && ConstantFirstIndex(g)|
  }

  /**
   * What `getCoalescedMemAccess` demands: direct calls only, and a first
   * index on each GEP it collects, whose operand 1 it reads.
   */
  predicate Analysable(f: Function) {
    (forall x | x in Instrs(f.blocks) :: !IsIndirectCall(x)) &&
    (forall x | x in GepSet(f) :: |x.operands| >= 2)
  }

  /**
   * `getCoalescedMemAccess`: the number of distinct GEPs on pointer arguments,
   * and how many of them are indexed by a use of `get_global_id` or by a constant.
   */
  method GetCoalescedMemAccess(f: Function) returns (cma: CoalescedMemAccess)
    requires Analysable(f)
    ensures cma.memAccess == |GepSet(f)|
    ensures cma.memCoalesced == Coalesced(f)
  {
    var all := Instrs(f.blocks);
    var geps := CollectGeps(f);
    ghost var gs := set g | g in geps;
    DistinctCard(geps);
    var coalesced := 0;
    for j := 0 to |all|
      invariant coalesced == GlobalIdHits(all[..j], all, gs)
    {
      var x := all[j];
      assert all[..j + 1][..j] == all[..j];
      if x.opcode == "call" {
        assert x in all;
        var name := x.callee.value.identifier;
        if Contains(name, "get_global_id") {
          var n := CallHits(x, all, geps);
          coalesced := coalesced + n;
        }
      }
    }
    assert all[..|all|] == all;
    var constant := CountWhere(geps, ConstantIndex);
    assert (set g | g in geps && Passes(g, ConstantIndex)) == set g | g in gs && ConstantFirstIndex(g);
    assert coalesced == GlobalIdHits(all, all, GepSet(f));
    assert constant == |set g | g in GepSet(f) && ConstantFirstIndex(g)|;
    cma := CoalescedMemAccess(|geps|, coalesced + constant);
  }

  /** Steps 1 and 2: the GEP users of each pointer argument, each GEP kept once. */
  method CollectGeps(f: Function) returns (geps: seq<Instruction>)
    ensures Distinct(geps) && (set g | g in geps) == GepSet(f)
  {
    var all := Instrs(f.blocks);
    geps := [];
    for i := 0 to |f.args|
      invariant Distinct(geps)
      invariant forall g :: g in geps <==> g in all && IsGep(g) && UsesPointerArg(f.args[..i], g)
    {
      var a := f.args[i];
      UsesPointerArgSnoc(f.args[..i + 1]);
      assert f.args[..i + 1][..i] == f.args[..i];
      if a.isPointer {
        for j := 0 to |all|
          invariant Distinct(geps)
          invariant forall g :: g in geps <==>
            g in all && IsGep(g) && (UsesPointerArg(f.args[..i], g) || (g in all[..j] && ArgRef(a.id) in g.operands))
        {
          var x := all[j];
          assert forall g :: g in all[..j + 1] <==> g in all[..j] || g == x;
          if IsGep(x) && ArgRef(a.id) in x.operands && x !in geps {
            geps := geps + [x];
          }
        }
        assert all[..|all|] == all;
      }
    }
    assert f.args[..|f.args|] == f.args;
  }

  /** Step 5 for one `get_global_id` call: per use of it, the GEPs whose first index is the user. */
  method CallHits(call: Instruction, users: seq<Instruction>, geps: seq<Instruction>) returns (n: nat)
    requires Distinct(geps)
    ensures n == UseHits(users, call, set g | g in geps)
  {
    ghost var gs := set g | g in geps;
    n := 0;
    for u := 0 to |users|
      invariant n == UseHits(users[..u], call, gs)
    {
      var user := users[u];
      assert users[..u + 1][..u] == users[..u];
      ghost var before := n;
      for p := 0 to |user.operands|
        invariant n == before + Occurrences(user.operands[..p], InstRef(call.id)) * IndexedBy(gs, InstRef(user.id))
      {
        assert user.operands[..p + 1][..p] == user.operands[..p];
        var v := InstRef(call.id);
        ghost var a := Occurrences(user.operands[..p], v);
        ghost var hitsPerUse := IndexedBy(gs, InstRef(user.id));
        if user.operands[p] == v {
          assert user.operands[..p + 1][p] == v;
          assert Occurrences(user.operands[..p + 1], v) == a + 1;
          assert (a + 1) * hitsPerUse == a * hitsPerUse + hitsPerUse;
          var hits := CountWhere(geps, IndexIs(InstRef(user.id)));
          assert (set g | g in geps && Passes(g, IndexIs(InstRef(user.id)))) == set g | g in gs && FirstIndexIs(g, InstRef(user.id));
          n := n + hits;
        } else {
          assert user.operands[..p + 1][p] != v;
          assert Occurrences(user.operands[..p + 1], v) == a;
        }
      }
      assert user.operands[..|user.operands|] == user.operands;
    }
    assert users[..|users|] == users;
  }

  /** The inner loops over `gep_set`: how many of its GEPs satisfy `p`. */
  method CountWhere(s: seq<Instruction>, t: GepTest) returns (n: nat)
    requires Distinct(s)
    ensures n == |set x | x in s && Passes(x, t)|
  {
    n := 0;
    for k := 0 to |s|
      invariant n == |set x | x in s[..k] && Passes(x, t)|
    {
      FilterSnoc(s[..k + 1], t);
      assert s[..k + 1][..k] == s[..k];
      if Passes(s[k], t) {
        n := n + 1;
      }
    }
    assert s[..|s|] == s;
  }

  lemma UsesPointerArgSnoc(args: seq<Argument>)
    requires args != []
    ensures forall x :: UsesPointerArg(args, x) <==>
      UsesPointerArg(args[..|args| - 1], x) || (args[|args| - 1].isPointer && ArgRef(args[|args| - 1].id) in x.operands)
  {
    assert args == args[..|args| - 1] + [args[|args| - 1]];
  }

  lemma FilterSnoc(s: seq<Instruction>, t: GepTest)
    requires Distinct(s) && s != []
    ensures |set x | x in s && Passes(x, t)| == |set x | x in s[..|s| - 1] && Passes(x, t)| + (if Passes(s[|s| - 1], t) then 1 else 0)
  {
    DistinctSnoc(s);
    var last := s[|s| - 1];
    var before := set x | x in s[..|s| - 1] && Passes(x, t);
    if Passes(last, t) {
      assert (set x | x in s && Passes(x, t)) == before + {last};
    } else {
      assert (set x | x in s && Passes(x, t)) == before;
    }
  }

  /** A list without repeats has as many elements as the set of its elements. */
  lemma {:induction false} DistinctCard(s: seq<Instruction>)
    requires Distinct(s)
    ensures |set x | x in s| == |s|
  {
    if s != [] {
      DistinctSnoc(s);
      DistinctCard(s[..|s| - 1]);
      var init := s[..|s| - 1];
      assert (set x | x in s) == (set x | x in init) + {s[|s| - 1]};
    }
  }

  /** With no pointer argument there is no GEP to count, so both counts are 0. */
  lemma NoPointerArgs(f: Function)
    requires forall a | a in f.args :: !a.isPointer
    ensures GepSet(f) == {}
    ensures Coalesced(f) == 0
  {
    var all := Instrs(f.blocks);
    forall x | x in all ensures !UsesPointerArg(f.args, x) {
    }
    assert GepSet(f) == {};
    NoHits(all, all);
  }

  lemma {:induction false} NoUseHits(users: seq<Instruction>, call: Instruction)
    ensures UseHits(users, call, {}) == 0
  {
    if users != [] {
      NoUseHits(users[..|users| - 1], call);
      var none: set<Instruction> := {};
      var u := users[|users| - 1];
      var hit := set g | g in none && FirstIndexIs(g, InstRef(u.id));
      assert hit == {};
    }
  }

  lemma {:induction false} NoHits(calls: seq<Instruction>, users: seq<Instruction>)
    ensures GlobalIdHits(calls, users, {}) == 0
  {
    if calls != [] {
      NoHits(calls[..|calls| - 1], users);
      NoUseHits(users, calls[|calls| - 1]);
    }
  }
}
