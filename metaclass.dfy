/**
 * The metaclass as it runs: the decorator writing a flag on a function object,
 * the two loops of the class hook, and the classes created so far.
 */
module PbcMeta {
  import opened Wrappers
  import opened Namespace
  import opened Pbc

  /** A function object: its callability is fixed, its protection flag is an attribute. */
  class FunctionObject {
    const callable: bool
    var isProtected: bool

    constructor (callable: bool)
      ensures this.callable == callable && !isProtected
    {
      this.callable := callable;
      isProtected := false;
    }

    /** The record the metaclass sees when this object sits in a class body. */
    function Observed(): Member
      reads this
    {
      Member(callable, isProtected)
    }
  }

  /** The decorator: sets the flag on the object itself and returns that same object. */
  method ProtectMethod(f: FunctionObject) returns (r: FunctionObject)
    modifies f
    ensures r == f
    ensures f.Observed() == Protect(old(f.Observed()))
  {
    f.isProtected := true;
    r := f;
  }

  /** The loop over the bases: extend a fresh list with each base's list. */
  method CollectInherited(bases: seq<Option<seq<Name>>>) returns (protected: seq<Name>)
    ensures protected == Inherited(bases)
  {
    protected := [];
    for i := 0 to |bases|
      invariant protected == Inherited(bases[..i])
    {
      match bases[i] {
        case Some(p) => protected := protected + p;
        case None =>
      }
      assert bases[..i + 1] == bases[..i] + [bases[i]];
      InheritedAppend(bases[..i], [bases[i]]);
    }
    assert bases[..|bases|] == bases;
  }

  /** The loop over the namespace: raise on a protected name, append marked names. */
  method ScanNamespace(ns: Dict, inherited: seq<Name>) returns (r: Result<seq<Name>, ProtectedFunction>)
    ensures r == Scan(ns, inherited)
  {
    var protected := inherited;
    var i := 0;
    while i < |ns|
      invariant 0 <= i <= |ns|
      invariant Scan(ns[i..], protected) == Scan(ns, inherited)
    {
      var name, obj := ns[i].name, ns[i].member;
      if name in protected {
        return Err(ProtectedFunction(name));
      }
      if Marks(obj) {
        protected := protected + [name];
      }
      assert ns[i..][1..] == ns[i + 1..];
      i := i + 1;
    }
    return Ok(protected);
  }

  /** A class identity. */
  type ClassId = nat

  /** A base class: one created through the registry, or one that carries no protected list. */
  datatype Base = Registered(id: ClassId) | Plain

  /** A created class: its name, bases, the namespace it was created with, and its list. */
  datatype ClassObject = ClassObject(name: string, bases: seq<Base>, ns: Dict, protected: seq<Name>)

  /** The classes created so far. Every registered base of a class was created before it. */
  class Registry {
    var classes: map<ClassId, ClassObject>
    var next: ClassId

    ghost predicate Valid()
      reads this
    {
      (forall id :: id in classes ==> id < next)
      && (forall id :: id in classes ==> ListKey !in classes[id].protected)
      && (forall id :: id in classes ==> BasesBefore(classes[id].bases, id))
    }

    constructor ()
      ensures Valid() && classes == map[] && next == 0
    {
      classes := map[];
      next := 0;
    }

    /** Every registered base is a class created before `id`. */
    ghost predicate BasesBefore(bases: seq<Base>, id: ClassId)
      reads this
    {
      forall i :: 0 <= i < |bases| && bases[i].Registered? ==> bases[i].id in classes && bases[i].id < id
    }

    /** The protected list of a class of the registry, if any. */
    function ClassList(id: ClassId): Option<seq<Name>>
      reads this
    {
      if id in classes then Some(classes[id].protected) else None
    }

    /** `getattr(base, '_pbc__protected_functions__', None)`. */
    function ListOf(base: Base): Option<seq<Name>>
      reads this
    {
      match base
      case Registered(id) => ClassList(id)
      case Plain => None
    }

    function BaseLists(bases: seq<Base>): (r: seq<Option<seq<Name>>>)
      reads this
      ensures |r| == |bases|
      ensures forall i :: 0 <= i < |bases| ==> r[i] == ListOf(bases[i])
    {
      seq(|bases|, i requires 0 <= i < |bases| reads this => ListOf(bases[i]))
    }

    /**
     * `target.name = value` on an object of class `target`: the guard reads the
     * target class's list from the registry when the write happens.
     */
    function Assign<V>(target: ClassId, name: Name, value: V): (d: Decision<V>)
      reads this
      ensures d.Reject? <==> target in classes && name in classes[target].protected
      ensures d.Reject? ==> d.error == ProtectedFunction(name)
      ensures d.Forward? ==> d.name == name && d.value == value
    {
      Guard(ClassList(target), name, value)
    }

    /**
     * The metaclass's `__new__`. On failure nothing is registered; on success
     * one fresh class is added and every existing class, with its list, stays
     * as it was.
     */
    method Build(clsname: string, bases: seq<Base>, body: Dict) returns (r: Result<ClassId, ProtectedFunction>)
      requires Valid()
      requires BasesBefore(bases, next)
      requires UniqueKeys(body)
      modifies this
      ensures Valid()
      ensures forall id :: id in old(classes) ==> id in classes && classes[id] == old(classes)[id]
      ensures match BuildList(old(BaseLists(bases)), body)
        case Err(e) => r == Err(e) && classes == old(classes) && next == old(next)
        case Ok(p) =>
          && r == Ok(old(next))
          && old(next) !in old(classes)
          && classes == old(classes)[old(next) := ClassObject(clsname, bases, Prepare(body), p)]
          && next == old(next) + 1
      ensures r.Ok? ==> forall i, n ::
        0 <= i < |bases| && bases[i].Registered? && n in old(classes)[bases[i].id].protected ==>
        n in classes[r.value].protected
    {
      ghost var baseLists := BaseLists(bases);
      var ns := Put(body, ListKey, ListValue);
      var protected := CollectInherited(BaseLists(bases));
      var user := Get(ns, SetattrKey);
      if user.Some? {
        ns := Put(ns, SetattrKey, Wrapped(user.value));
      } else {
        ns := Put(ns, SetattrKey, DefaultSetter);
      }
      assert ns == Prepare(body);
      var scanned := ScanNamespace(ns, protected);
      match scanned {
        case Err(e) =>
          r := Err(e);
        case Ok(p) =>
          ListKeyNeverCollected(baseLists, body);
          forall i, n | 0 <= i < |bases| && bases[i].Registered? && n in classes[bases[i].id].protected
            ensures n in p
          {
            InheritedIncludesEach(baseLists, i, n, body);
          }
          classes := classes[next := ClassObject(clsname, bases, ns, p)];
          r := Ok(next);
          next := next + 1;
      }
    }
  }

}
