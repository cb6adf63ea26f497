/** Objects of the host scene, their export mark, their armature lookup, and
    the parent graph with its queries and the reparenting guard
    (collada_utils.cpp). */
module SceneObjects {
  import opened Flags

  /** One entry of an object's modifier stack; only the armature modifier's
      target object matters to the helpers. */
  datatype Modifier =
    | ArmatureModifier(armature: Object?)
    | OtherModifier(modifierType: int)

  /** A scene object: the fields the helpers read or write. Transform
      matrices are not modelled. `data` stands for the object's data block
      (a mesh, an armature, ...), or null for an empty. */
  class Object {
    const name: string
    var objectType: int
    var data: object?
    var parent: Object?
    var partype: int
    var parsubstr: string
    var flag: bv16
    var recalc: bv16
    var modifiers: seq<Modifier>

    /** A new object of the given name, type and data: no parent, no
        modifiers, no flags set. */
    constructor (name: string, objectType: int, data: object?)
      ensures this.name == name && this.objectType == objectType && this.data == data
      ensures parent == null && parsubstr == [] && modifiers == []
      ensures flag == 0 && recalc == 0
    {
      this.name := name;
      this.objectType := objectType;
      this.data := data;
      parent := null;
      partype := 0;
      parsubstr := [];
      flag := 0;
      recalc := 0;
      modifiers := [];
    }
  }

  /** bc_is_marked: a null object is never marked; otherwise the LIB_DOIT
      bit of its ID flags decides. */
  function IsMarked(ob: Object?): (r: bool)
    reads ob
    ensures ob == null ==> !r
    ensures ob != null ==> (r <==> ob.flag & LIB_DOIT != 0)
  {
    ob != null && ob.flag & LIB_DOIT != 0
  }

  /** bc_set_mark: sets the mark and leaves every other ID flag bit alone. */
  method SetMark(ob: Object)
    modifies ob`flag
    ensures IsMarked(ob)
    ensures ob.flag & !LIB_DOIT == old(ob.flag) & !LIB_DOIT
  {
    ob.flag := WithMark(ob.flag);
  }

  /** bc_remove_mark: clears the mark and leaves every other ID flag bit
      alone. */
  method RemoveMark(ob: Object)
    modifies ob`flag
    ensures !IsMarked(ob)
    ensures ob.flag & !LIB_DOIT == old(ob.flag) & !LIB_DOIT
  {
    ob.flag := WithoutMark(ob.flag);
  }

  /** The object is parented to an armature through a skeletal parent. */
  predicate HasSkeletalParent(ob: Object)
    reads ob, ob.parent
  {
    ob.parent != null && ob.partype == PARSKEL && ob.parent.objectType == OB_ARMATURE
  }

  /** bc_get_assigned_armature: a skeletal armature parent wins; otherwise
      the target of the LAST armature modifier on the stack (the scan has no
      early exit), or null when there is no armature modifier. */
  method GetAssignedArmature(ob: Object) returns (arm: Object?)
    ensures HasSkeletalParent(ob) ==> arm == ob.parent
    ensures !HasSkeletalParent(ob) &&
            (forall i :: 0 <= i < |ob.modifiers| ==> !ob.modifiers[i].ArmatureModifier?)
            ==> arm == null
    ensures !HasSkeletalParent(ob) ==>
            forall k :: 0 <= k < |ob.modifiers| && ob.modifiers[k].ArmatureModifier? &&
                        (forall j :: k < j < |ob.modifiers| ==> !ob.modifiers[j].ArmatureModifier?)
                        ==> arm == ob.modifiers[k].armature
  {
    arm := null;
    if ob.parent != null && ob.partype == PARSKEL && ob.parent.objectType == OB_ARMATURE {
      arm := ob.parent;
    } else {
      var mods := ob.modifiers;
      var i := 0;
      while i < |mods|
        invariant 0 <= i <= |mods|
        invariant (forall k :: 0 <= k < i ==> !mods[k].ArmatureModifier?) ==> arm == null
        invariant forall k :: 0 <= k < i && mods[k].ArmatureModifier? &&
                              (forall j :: k < j < i ==> !mods[j].ArmatureModifier?)
                              ==> arm == mods[k].armature
      {
        if mods[i].ArmatureModifier? {
          arm := mods[i].armature;
        }
        i := i + 1;
      }
    }
  }

  /** The objects of the host database together with a ghost rank that
      strictly decreases from child to parent. The rank is the acyclicity
      measure of the parent graph: every walk up `parent` pointers ends. */
  class Scene {
    ghost var objects: set<Object>
    ghost var rank: map<Object, nat>

    /** An empty scene, which is trivially acyclic. */
    constructor ()
      ensures Valid() && objects == {} && rank == map[]
    {
      objects := {};
      rank := map[];
    }

    ghost predicate Valid()
      reads this, objects
    {
      forall o :: o in objects ==>
        o in rank &&
        (o.parent != null ==> o.parent in objects && o.parent in rank && rank[o.parent] < rank[o])
    }

    /** bc_test_parent_loop: is `ob` equal to `par` or somewhere on `par`'s
        parent chain? A null `par` has no chain. */
    function TestParentLoop(par: Object?, ob: Object): (r: bool)
      requires Valid()
      requires par == null || par in objects
      reads this, objects
      ensures par == null ==> !r
      ensures r ==> par != null && ob in objects && rank[ob] <= rank[par]
      decreases if par == null then 0 else rank[par] + 1
    {
      if par == null then false
      else if ob == par then true
      else TestParentLoop(par.parent, ob)
    }

    /** The object reached by following `parent` n times (null once the chain
        has ended): an independent description of the parent chain. */
    ghost function NthParent(o: Object?, n: nat): (a: Object?)
      requires Valid()
      requires o == null || o in objects
      reads this, objects
      ensures a == null || a in objects
      decreases n
    {
      if n == 0 || o == null then o else NthParent(o.parent, n - 1)
    }

    lemma {:induction false} TestParentLoopReaches(par: Object?, ob: Object)
      requires Valid()
      requires par == null || par in objects
      requires TestParentLoop(par, ob)
      ensures exists n: nat :: NthParent(par, n) == ob
      decreases if par == null then 0 else rank[par]
    {
      if par == ob {
        assert NthParent(par, 0) == ob;
      } else {
        TestParentLoopReaches(par.parent, ob);
        var n: nat :| NthParent(par.parent, n) == ob;
        assert NthParent(par, n + 1) == ob;
      }
    }

    lemma {:induction false} ReachesTestParentLoop(par: Object?, ob: Object, n: nat)
      requires Valid()
      requires par == null || par in objects
      requires NthParent(par, n) == ob
      ensures TestParentLoop(par, ob)
      decreases n
    {
      if n > 0 && par != ob {
        ReachesTestParentLoop(par.parent, ob, n - 1);
      }
    }

    /** The loop test holds exactly when `ob` is reached from `par` by
        following `parent` some number of times (zero times: `ob == par`). */
    lemma TestParentLoopIsAncestry(par: Object?, ob: Object)
      requires Valid()
      requires par == null || par in objects
      ensures TestParentLoop(par, ob) <==> exists n: nat :: NthParent(par, n) == ob
    {
      if TestParentLoop(par, ob) {
        TestParentLoopReaches(par, ob);
      } else if exists n: nat :: NthParent(par, n) == ob {
        var n: nat :| NthParent(par, n) == ob;
        ReachesTestParentLoop(par, ob, n);
      }
    }

    /** In a valid scene no object lies on its own parent's chain. */
    lemma NoParentLoop(o: Object)
      requires Valid() && o in objects
      ensures !TestParentLoop(o.parent, o)
    {
    }

    /** The ancestor-or-self relation is transitive... */
    lemma {:induction false} ChainTransitive(a: Object, b: Object, c: Object)
      requires Valid() && a in objects
      requires TestParentLoop(a, b) && TestParentLoop(b, c)
      ensures TestParentLoop(a, c)
      decreases rank[a]
    {
      if a != b {
        ChainTransitive(a.parent, b, c);
      }
    }

    /** ... antisymmetric ... */
    lemma ChainAntisymmetric(a: Object, b: Object)
      requires Valid() && a in objects
      requires TestParentLoop(a, b) && TestParentLoop(b, a)
      ensures a == b
    {
    }

    /** ... and the ancestors of one object form a single chain: any two of
        them are related. */
    lemma {:induction false} ChainLinear(a: Object, b: Object, c: Object)
      requires Valid() && a in objects
      requires TestParentLoop(a, b) && TestParentLoop(a, c)
      ensures TestParentLoop(b, c) || TestParentLoop(c, b)
      decreases rank[a]
    {
      if a != b && a != c {
        ChainLinear(a.parent, b, c);
      }
    }

    /** bc_set_parent, without its matrix half: refuses a null parent and a
        parent that would close a loop, changing nothing; otherwise makes
        `par` the object parent of `ob` and flags both for recalculation.
        The parent graph stays acyclic. `isParentSpace` only selects matrix
        arithmetic, which is not modelled. */
    method SetParent(ob: Object, par: Object?, isParentSpace: bool) returns (ok: bool)
      requires Valid() && ob in objects
      requires par == null || par in objects
      modifies this, ob`parent, ob`partype, ob`parsubstr, ob`recalc
      modifies (if par == null then {} else {par})`recalc
      ensures Valid() && objects == old(objects)
      ensures ok <==> par != null && !old(TestParentLoop(par, ob))
      ensures !ok ==> unchanged(this) && unchanged(ob) && (par != null ==> unchanged(par))
      ensures ok ==> ob.parent == par && ob.partype == PAROBJECT && ob.parsubstr == ""
      ensures ok ==> ob.recalc == old(ob.recalc) | OB_RECALC_OB | OB_RECALC_DATA
      ensures ok ==> par.recalc == old(par.recalc) | OB_RECALC_OB
      ensures ok ==> TestParentLoop(ob, par)
    {
      if par == null || TestParentLoop(par, ob) {
        return false;
      }
      // Everything whose chain passes through `ob` moves up with it.
      ghost var moved := set o | o in objects && TestParentLoop(o, ob);
      ghost var newRank := map o | o in rank :: if o in moved then rank[o] + rank[par] + 1 else rank[o];
      forall o | o in objects && o != ob
        ensures o in moved <==> o.parent != null && o.parent in moved
      {
      }
      assert ob in moved && par !in moved;

      ob.parent := par;
      ob.partype := PAROBJECT;
      ob.parsubstr := "";
      ob.recalc := ob.recalc | OB_RECALC_OB | OB_RECALC_DATA;
      par.recalc := par.recalc | OB_RECALC_OB;
      rank := newRank;
      forall o | o in objects
        ensures o in rank
        ensures o.parent != null ==> o.parent in objects && o.parent in rank && rank[o.parent] < rank[o]
      {
      }
      assert TestParentLoop(par, par);
      return true;
    }

    /** bc_get_highest_selected_ancestor_or_self: climbs from `ob` while the
        parent is marked. The result is `ob` or one of its ancestors, every
        object strictly above `ob` up to the result is marked, and the
        result's parent is null or unmarked. The export set is not
        consulted. */
    method HighestSelectedAncestorOrSelf(exportSet: seq<Object>, ob: Object) returns (ancestor: Object)
      requires Valid() && ob in objects
      ensures ancestor in objects && TestParentLoop(ob, ancestor)
      ensures ancestor.parent == null || !IsMarked(ancestor.parent)
      ensures forall o :: o in objects && o != ob && TestParentLoop(ob, o) && TestParentLoop(o, ancestor)
                          ==> IsMarked(o)
    {
      var cur := ob;
      ancestor := ob;
      while cur.parent != null && IsMarked(cur.parent)
        invariant cur in objects && ancestor == cur
        invariant TestParentLoop(ob, cur)
        invariant forall o :: o in objects && o != ob && TestParentLoop(ob, o) && TestParentLoop(o, cur)
                              ==> IsMarked(o)
        decreases rank[cur]
      {
        var next := cur.parent;
        assert TestParentLoop(cur, next) by {
          assert TestParentLoop(next, next);
        }
        ChainTransitive(ob, cur, next);
        forall o | o in objects && o != ob && TestParentLoop(ob, o) && TestParentLoop(o, next)
          ensures IsMarked(o)
        {
          if o != next {
            ChainLinear(ob, o, cur);
            if !TestParentLoop(o, cur) {
              assert TestParentLoop(next, o);
              ChainAntisymmetric(o, next);
            }
          }
        }
        cur := next;
        ancestor := cur;
      }
    }

    /** bc_is_base_node: `ob` is its own highest selected ancestor exactly
        when its parent is null or unmarked. */
    method IsBaseNode(exportSet: seq<Object>, ob: Object) returns (isBase: bool)
      requires Valid() && ob in objects
      ensures isBase <==> ob.parent == null || !IsMarked(ob.parent)
    {
      var root := HighestSelectedAncestorOrSelf(exportSet, ob);
      isBase := root == ob;
      if !isBase {
        assert TestParentLoop(ob.parent, root);
        assert TestParentLoop(ob, ob.parent) by {
          assert TestParentLoop(ob.parent, ob.parent);
        }
      }
    }
  }
}
