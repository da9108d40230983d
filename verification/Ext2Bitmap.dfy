/** Block allocation of ext2 (kernel/vfs/ext2.c): one bitmap and one free count a group. */
module Ext2Bitmap {
  import opened Division

  /** The bitmap of a group as its bits, and the count kept in the group descriptor. */
  datatype Group = Group(bits: seq<bool>, free: nat)

  function Clear(bits: seq<bool>): nat {
    if bits == [] then 0 else (if bits[0] then 0 else 1) + Clear(bits[1..])
  }

  lemma {:induction false} ClearSet(bits: seq<bool>, i: nat)
    requires i < |bits| && !bits[i]
    ensures Clear(bits[i := true]) + 1 == Clear(bits)
    decreases i
  {
    if i == 0 {
      assert bits[i := true][1..] == bits[1..];
    } else {
      assert bits[i := true][1..] == bits[1..][i - 1 := true];
      ClearSet(bits[1..], i - 1);
    }
  }

  lemma ClearReset(bits: seq<bool>, i: nat)
    requires i < |bits| && bits[i]
    ensures Clear(bits[i := false]) == Clear(bits) + 1
  {
    ClearSet(bits[i := false], i);
    assert bits[i := false][i := true] == bits;
  }

  lemma {:induction false} ClearZero(bits: seq<bool>)
    requires Clear(bits) == 0
    ensures forall i :: 0 <= i < |bits| ==> bits[i]
  {
    if bits != [] {
      ClearZero(bits[1..]);
      forall i | 0 <= i < |bits| ensures bits[i] {
        if i > 0 { assert bits[i] == bits[1..][i - 1]; }
      }
    }
  }

  /** Each group's free count is the number of its clear bits. */
  ghost predicate Counted(groups: seq<Group>, perGroup: nat) {
    forall g :: 0 <= g < |groups| ==> |groups[g].bits| == perGroup && groups[g].free == Clear(groups[g].bits)
  }

  /** The bit of a block. Blocks past the last group count as used. */
  ghost predicate Bit(groups: seq<Group>, perGroup: nat, block: nat)
    requires perGroup > 0 && Counted(groups, perGroup)
  {
    block / perGroup < |groups| ==> groups[block / perGroup].bits[block % perGroup]
  }

  /** Setting or clearing one bit, with the count adjusted, changes the bit of one block. */
  lemma SetBit(groups: seq<Group>, perGroup: nat, g: nat, i: nat, v: bool, free: nat)
    requires Counted(groups, perGroup) && g < |groups| && i < perGroup && groups[g].bits[i] != v
    requires free == if v then groups[g].free - 1 else groups[g].free + 1
    ensures var groups' := groups[g := Group(groups[g].bits[i := v], free)];
            Counted(groups', perGroup) &&
            forall b: nat :: Bit(groups', perGroup, b) <==> if b == g * perGroup + i then v else Bit(groups, perGroup, b)
  {
    if v { ClearSet(groups[g].bits, i); } else { ClearReset(groups[g].bits, i); }
    hide Clear, Bit;
    var groups' := groups[g := Group(groups[g].bits[i := v], free)];
    BitAt(groups', perGroup, g, i);
    forall b: nat | b != g * perGroup + i ensures Bit(groups', perGroup, b) == Bit(groups, perGroup, b) {
      OtherBit(groups, groups', perGroup, g, i, b);
    }
  }

  lemma OtherBit(groups: seq<Group>, groups': seq<Group>, perGroup: nat, g: nat, i: nat, b: nat)
    requires perGroup > 0 && Counted(groups, perGroup) && Counted(groups', perGroup) && |groups'| == |groups|
    requires forall h, j :: 0 <= h < |groups| && 0 <= j < perGroup && !(h == g && j == i) ==> groups'[h].bits[j] == groups[h].bits[j]
    requires b != g * perGroup + i
    ensures Bit(groups', perGroup, b) == Bit(groups, perGroup, b)
  {
    assert b == b / perGroup * perGroup + b % perGroup;
    assert b / perGroup == g ==> b / perGroup * perGroup == g * perGroup;
  }

  /** A group without clear bits holds no free block. */
  lemma FullGroup(groups: seq<Group>, perGroup: nat, g: nat, b: nat)
    requires perGroup > 0 && Counted(groups, perGroup) && g < |groups| && groups[g].free == 0 && g * perGroup <= b < g * perGroup + perGroup
    ensures Bit(groups, perGroup, b)
  {
    ClearZero(groups[g].bits);
    DivUnique(b, perGroup, g, b - g * perGroup);
  }

  lemma BitAt(groups: seq<Group>, perGroup: nat, g: nat, i: nat)
    requires perGroup > 0 && Counted(groups, perGroup) && g < |groups| && i < perGroup
    ensures Bit(groups, perGroup, g * perGroup + i) == groups[g].bits[i]
  {
    DivUnique(g * perGroup + i, perGroup, g, i);
  }

  lemma Next(perGroup: nat, g: nat)
    ensures (g + 1) * perGroup == g * perGroup + perGroup
  {
  }

  lemma Reach(count: nat, perGroup: nat, groups: nat)
    requires perGroup > 0 && groups == (count + perGroup - 1) / perGroup
    ensures count <= groups * perGroup
  {
    var x := count + perGroup - 1;
    assert x == perGroup * (x / perGroup) + x % perGroup;
  }

  /** The volume: `count` blocks in groups of `perGroup`. */
  class Volume {
    const count: nat
    const perGroup: nat
    var groups: seq<Group>
    /** The blocks given back so far, in order. */
    ghost var released: seq<nat>

    ghost predicate Valid()
      reads this
    {
      perGroup > 0 && |groups| == (count + perGroup - 1) / perGroup && Counted(groups, perGroup)
    }

    ghost predicate Used(block: nat)
      requires Valid()
      reads this
    {
      Bit(groups, perGroup, block)
    }

    /** The blocks that can be allocated. */
    ghost function Available(): set<nat>
      requires Valid()
      reads this
    {
      set b: nat | 0 < b < count && !Used(b)
    }

    constructor (count: nat, perGroup: nat, groups: seq<Group>)
      ensures this.count == count && this.perGroup == perGroup && this.groups == groups && released == []
    {
      this.count, this.perGroup, this.groups, this.released := count, perGroup, groups, [];
    }

    /** The lowest allocatable block of a group, if any. */
    method Search(g: nat) returns (found: bool, block: nat)
      requires Valid() && g < |groups|
      ensures found ==> 0 < block < count && g * perGroup <= block < g * perGroup + perGroup && !Used(block)
      ensures forall b: nat :: 0 < b < count && g * perGroup <= b < (if found then block else g * perGroup + perGroup) ==> Used(b)
    {
      hide Bit, Counted;
      var start := g * perGroup;
      var end := if start + perGroup > count then count else start + perGroup;
      block := start;
      while block < end
        invariant start <= block
        invariant forall b: nat :: 0 < b && start <= b < block ==> Used(b)
      {
        SearchAt(start, block, g);
        if block != 0 && !groups[g].bits[block - start] {
          return true, block;
        }
        block := block + 1;
      }
      found := false;
    }

    lemma SearchAt(start: nat, block: nat, g: nat)
      requires Valid() && g < |groups| && start == g * perGroup && start <= block < start + perGroup
      ensures |groups[g].bits| == perGroup && Used(block) == groups[g].bits[block - start]
    {
      BitAt(groups, perGroup, g, block - start);
    }

    /** `ext2_alloc_block`: the lowest free block other than block 0. */
    method Alloc() returns (ok: bool, block: nat)
      requires Valid()
      modifies this`groups
      ensures Valid()
      ensures ok ==> 0 < block < count && !old(Used(block)) && forall b: nat :: Used(b) <==> b == block || old(Used(b))
      ensures ok ==> forall b: nat :: 0 < b < block ==> old(Used(b))
      ensures !ok ==> groups == old(groups) && forall b: nat :: 0 < b < count ==> Used(b)
      ensures ok <==> old(Available()) != {}
      ensures Available() == old(Available()) - if ok then {block} else {}
    {
      hide Bit, Clear;
      for g := 0 to |groups|
        invariant groups == old(groups)
        invariant forall b: nat :: 0 < b < g * perGroup && b < count ==> Used(b)
      {
        Next(perGroup, g);
        if groups[g].free == 0 {
          forall b: nat | g * perGroup <= b < g * perGroup + perGroup ensures Used(b) { FullGroup(groups, perGroup, g, b); }
          continue;
        }
        ok, block := Search(g);
        if ok {
          assert block in Available();
          Take(g, block);
          return;
        }
      }
      Reach(count, perGroup, |groups|);
      return false, 0;
    }

    method Take(g: nat, block: nat)
      requires Valid() && g < |groups| && g * perGroup <= block < g * perGroup + perGroup && !Used(block)
      modifies this`groups
      ensures Valid() && forall b: nat :: Used(b) <==> b == block || old(Used(b))
    {
      var i := block - g * perGroup;
      BitAt(groups, perGroup, g, i);
      ClearSet(groups[g].bits, i);
      hide Bit, Clear;
      SetBit(groups, perGroup, g, i, true, groups[g].free - 1);
      groups := groups[g := Group(groups[g].bits[i := true], groups[g].free - 1)];
    }

    /** `ext2_free_block_chain`: one block is given back; giving back a free block changes nothing. */
    method Free(block: nat)
      requires Valid()
      modifies this
      ensures Valid()
      ensures forall b: nat :: Used(b) <==> old(Used(b)) && !(b == block && 0 < block && block / perGroup < |groups|)
      ensures released == if block == 0 then old(released) else old(released) + [block]
    {
      hide Bit, Clear;
      if block == 0 {
        return;
      }
      released := released + [block];
      var g := block / perGroup;
      if g >= |groups| {
        return;
      }
      var i := block - g * perGroup;
      assert i == block % perGroup;
      BitAt(groups, perGroup, g, i);
      if groups[g].bits[i] {
        SetBit(groups, perGroup, g, i, false, groups[g].free + 1);
        groups := groups[g := Group(groups[g].bits[i := false], groups[g].free + 1)];
      }
    }
  }
}
