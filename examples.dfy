/**
 * The repository's two demonstration scripts, replayed on the model: the
 * class `PBC`, then `ProtectedExample` built on it, then `Inherit` built on
 * that. Class bodies hold entries Python adds itself, among others
 * `__module__` and `__qualname__` (strings; Python 3.13 also adds
 * `__firstlineno__` and `__static_attributes__`, which are just as
 * non-callable and unflagged), plus what the body declares.
 */
module Examples {
  import opened Wrappers
  import opened Namespace
  import opened Pbc
  import opened PbcMeta

  /** A value that is not callable and carries no flag (a string, a tuple). */
  const Attribute: Member := Member(false, false)
  /** An undecorated method. */
  const Method: Member := Member(true, false)

  /** The body of `PBC`: a docstring and empty `__slots__`, nothing protected. */
  function PbcBody(): Dict {
    [Entry("__module__", Attribute), Entry("__qualname__", Attribute), Entry("__doc__", Attribute), Entry("__slots__", Attribute)]
  }

  /** `ProtectedExample` of the first script: `__init__` decorated. */
  function ProtectedInitBody(): Dict {
    [Entry("__module__", Attribute), Entry("__qualname__", Attribute), Entry("__init__", Protect(Method))]
  }

  /** `Inherit` of the first script: an undecorated `__init__` of its own. */
  function RedeclaringBody(): Dict {
    [Entry("__module__", Attribute), Entry("__qualname__", Attribute), Entry("__init__", Method)]
  }

  /** `ProtectedExample` of the second script: `setvalue` decorated. */
  function ProtectedSetvalueBody(): Dict {
    [Entry("__module__", Attribute), Entry("__qualname__", Attribute), Entry("setvalue", Protect(Method))]
  }

  /** `Inherit` of the second script: an empty body. */
  function EmptyBody(): Dict {
    [Entry("__module__", Attribute), Entry("__qualname__", Attribute)]
  }

  lemma BodiesAreDicts()
    ensures UniqueKeys(PbcBody()) && UniqueKeys(ProtectedInitBody()) && UniqueKeys(RedeclaringBody())
    ensures UniqueKeys(ProtectedSetvalueBody()) && UniqueKeys(EmptyBody())
    ensures forall e :: e in PbcBody() + EmptyBody() ==> e.name != ListKey && e.name != SetattrKey
    ensures forall e :: e in ProtectedInitBody() + ProtectedSetvalueBody() ==> e.name != ListKey && e.name != SetattrKey
  {
    assert |ListKey| == 27 && |SetattrKey| == 11;
  }

  /** `PBC` is created, with an empty list. */
  lemma PbcHasEmptyList()
    ensures UniqueKeys(PbcBody())
    ensures BuildList([], PbcBody()) == Ok([])
  {
    BodiesAreDicts();
    BuildSucceeds([], PbcBody());
    UnflaggedBodyAddsNothing([], PbcBody());
  }

  /** A class whose only marked member is `n` is created with the list `[n]` on top of an empty inherited list. */
  lemma OneMarked(body: Dict, n: Name)
    requires UniqueKeys(body) && |body| == 3
    requires body[0].name != ListKey && body[1].name != ListKey && body[2].name != ListKey
    requires body[0].name != SetattrKey && body[1].name != SetattrKey && body[2].name != SetattrKey
    requires !body[0].member.isProtected && !body[1].member.isProtected
    requires body[2] == Entry(n, Protect(Method))
    ensures BuildList([Some([])], body) == Ok([n])
  {
    BuildSucceeds([Some([])], body);
    assert Inherited([Some([])]) == [];
    assert AdjustAll(body) == body;
    assert body[1..][1..] == body[2..] && body[2..][1..] == [];
    assert Marked(body[2..]) == [n];
    assert Marked(body) == [n];
    assert BuildList([Some([])], body).Ok?;
    assert Inherited([Some([])]) + Marked(AdjustAll(body)) == [n];
  }

  /** First script: `ProtectedExample` is created and protects `__init__`. */
  lemma ProtectedInitIsCollected()
    ensures UniqueKeys(ProtectedInitBody())
    ensures BuildList([Some([])], ProtectedInitBody()) == Ok(["__init__"])
  {
    BodiesAreDicts();
    OneMarked(ProtectedInitBody(), "__init__");
  }

  /** First script: `Inherit` is refused for redeclaring the protected `__init__`. */
  lemma RedeclaredInitIsRefused()
    ensures UniqueKeys(RedeclaringBody())
    ensures BuildList([Some(["__init__"])], RedeclaringBody()) == Err(ProtectedFunction("__init__"))
  {
    BodiesAreDicts();
    var bases: seq<Option<seq<Name>>> := [Some(["__init__"])];
    assert Inherited(bases) == ["__init__"];
    assert "__init__" in Keys(RedeclaringBody());
    RedeclarationFails(bases, RedeclaringBody(), 0, "__init__");
  }

  /** Second script: `ProtectedExample` is created and protects `setvalue`. */
  lemma ProtectedSetvalueIsCollected()
    ensures BuildList([Some([])], ProtectedSetvalueBody()) == Ok(["setvalue"])
  {
    BodiesAreDicts();
    OneMarked(ProtectedSetvalueBody(), "setvalue");
  }

  /** Second script: `Inherit`, with an empty body, is created and carries the inherited list. */
  lemma EmptySubclassInherits()
    ensures BuildList([Some(["setvalue"])], EmptyBody()) == Ok(["setvalue"])
  {
    BodiesAreDicts();
    var bases: seq<Option<seq<Name>>> := [Some(["setvalue"])];
    assert Inherited(bases) == ["setvalue"];
    BuildSucceeds(bases, EmptyBody());
    UnflaggedBodyAddsNothing(bases, EmptyBody());
  }

  /** Second script: instances of `Inherit` refuse a write to `setvalue` and pass on a write to `value`. */
  lemma InheritedSetvalueIsGuarded(v: int)
    ensures BuildList([Some(["setvalue"])], EmptyBody()).Ok?
    ensures var inherit := BuildList([Some(["setvalue"])], EmptyBody()).value;
      && Guard(Some(inherit), "setvalue", v) == Reject(ProtectedFunction("setvalue"))
      && Guard(Some(inherit), "value", v) == Forward("value", v)
  {
    EmptySubclassInherits();
    assert "value" != "setvalue";
  }

  /** The first script run against a fresh registry: the last class statement fails and registers nothing. */
  method FirstScript() returns (r: Result<ClassId, ProtectedFunction>, registry: Registry)
    ensures r == Err(ProtectedFunction("__init__"))
    ensures registry.Valid() && registry.classes.Keys == {0, 1}
  {
    registry := new Registry();
    DefineBases(registry);
    assert registry.BaseLists([Registered(1)]) == [Some(["__init__"])];
    RedeclaredInitIsRefused();
    r := registry.Build("Inherit", [Registered(1)], RedeclaringBody());
  }

  /** `PBC` and `ProtectedExample` of the first script, defined in an empty registry. */
  method DefineBases(registry: Registry)
    requires registry.Valid() && registry.classes == map[] && registry.next == 0
    modifies registry
    ensures registry.Valid() && registry.next == 2 && registry.classes.Keys == {0, 1}
    ensures registry.classes[1].protected == ["__init__"]
  {
    DefinePbc(registry);
    assert registry.BaseLists([Registered(0)]) == [Some([])];
    ProtectedInitIsCollected();
    var example := registry.Build("ProtectedExample", [Registered(0)], ProtectedInitBody());
  }

  /** `PBC` itself, the first class of an empty registry. */
  method DefinePbc(registry: Registry)
    requires registry.Valid() && registry.classes == map[] && registry.next == 0
    modifies registry
    ensures registry.Valid() && registry.next == 1 && registry.classes.Keys == {0}
    ensures registry.classes[0].protected == []
  {
    assert registry.BaseLists([]) == [];
    PbcHasEmptyList();
    var pbc := registry.Build("PBC", [], PbcBody());
  }
}
