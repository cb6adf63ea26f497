/** Bones of an armature and the root-bone test (collada_utils.cpp). */
module Bones {
  import opened Flags

  /** A bone: its parent and its flag word. No helper reparents a bone, so the
      parent is fixed; the ghost depth (0 for a parentless bone) grows by one
      per level and makes every walk up the chain end. */
  class Bone {
    const parent: Bone?
    ghost const depth: nat
    var flag: bv32

    constructor (parent: Bone?, flag: bv32)
      requires parent != null ==> parent.Ranked()
      ensures this.parent == parent && this.flag == flag && Ranked()
    {
      this.parent := parent;
      this.flag := flag;
      this.depth := if parent == null then 0 else parent.depth + 1;
    }

    /** Every bone on the chain is shallower than the one below it. */
    ghost predicate Ranked()
      decreases depth
    {
      parent != null ==> parent.depth < depth && parent.Ranked()
    }
  }

  /** The bone can deform geometry: BONE_NO_DEFORM is clear. */
  predicate Deforms(b: Bone)
    reads b
  {
    b.flag & BONE_NO_DEFORM == 0
  }

  /** The bone followed by all its ancestors, nearest first. */
  ghost function Chain(b: Bone?): seq<Bone>
    requires b != null ==> b.Ranked()
    decreases if b == null then 0 else b.depth + 1
  {
    if b == null then [] else [b] + Chain(b.parent)
  }

  /** Every strict ancestor on the chain is shallower than the bone, so a bone
      never reappears above itself. */
  lemma {:induction false} ChainAbove(b: Bone)
    requires b.Ranked()
    ensures forall k :: 1 <= k < |Chain(b)| ==> Chain(b)[k].depth < b.depth
    decreases b.depth
  {
    if b.parent != null {
      ChainAbove(b.parent);
      assert Chain(b) == [b] + Chain(b.parent);
      assert Chain(b.parent)[0] == b.parent;
    }
  }

  /** On a bone's chain, when `last` indexes the last deforming bone (or is
      -1 when none deforms), that bone is the first one exactly when the
      first deforms and no ancestor does. */
  lemma LastDeformingIsFirst(b: Bone, last: int)
    requires b.Ranked()
    requires -1 <= last < |Chain(b)|
    requires last >= 0 ==> Deforms(Chain(b)[last])
    requires forall k :: last < k < |Chain(b)| ==> !Deforms(Chain(b)[k])
    ensures (last >= 0 && Chain(b)[last] == b) <==>
            Deforms(b) && forall k :: 1 <= k < |Chain(b)| ==> !Deforms(Chain(b)[k])
  {
    var s := Chain(b);
    assert s == [b] + Chain(b.parent);
    ChainAbove(b);
    assert s[0] == b;
    if last > 0 {
      assert s[last].depth < b.depth;
    }
  }

  /** bc_is_root_bone. Without `deformBonesOnly` a root is a bone without a
      parent. With it, a root is a deforming bone none of whose ancestors
      deforms; in particular a non-deforming bone is never a root. */
  method IsRootBone(aBone: Bone, deformBonesOnly: bool) returns (r: bool)
    requires aBone.Ranked()
    ensures !deformBonesOnly ==> (r <==> aBone.parent == null)
    ensures deformBonesOnly ==>
            (r <==> Deforms(aBone) &&
                    forall k :: 1 <= k < |Chain(aBone)| ==> !Deforms(Chain(aBone)[k]))
    ensures deformBonesOnly && !Deforms(aBone) ==> !r
  {
    if deformBonesOnly {
      var root: Bone? := null;
      var bone: Bone? := aBone;
      ghost var chain := Chain(aBone);
      ghost var i := 0;       // position of `bone` on the chain
      ghost var last := -1;   // position of `root` on the chain, or -1
      while bone != null
        invariant 0 <= i <= |chain|
        invariant bone != null ==> bone.Ranked()
        invariant Chain(bone) == chain[i..]
        invariant -1 <= last < i
        invariant (last == -1) == (root == null)
        invariant last >= 0 ==> root == chain[last] && Deforms(root)
        invariant forall k :: last < k < i ==> !Deforms(chain[k])
        decreases if bone == null then 0 else bone.depth + 1
      {
        assert chain[i..] == [bone] + Chain(bone.parent);
        assert chain[i] == bone && chain[i + 1..] == Chain(bone.parent);
        if bone.flag & BONE_NO_DEFORM == 0 {
          root := bone;
          last := i;
        }
        i := i + 1;
        bone := bone.parent;
      }
      LastDeformingIsFirst(aBone, last);
      r := aBone == root;
    } else {
      r := aBone.parent == null;
    }
  }
}
