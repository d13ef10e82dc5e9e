# Protected Base Classes, modelled in Dafny

This project models `pbc.py`, a Python metaclass that protects methods from
being overwritten. A method decorated with `protectmethod` is flagged. When a
class is created, the metaclass `PBCMeta` does four things:

- it builds the class's protected-name list from its bases' lists;
- it refuses a class body that declares a name already on that list;
- it adds the body's own flagged methods to the list;
- it wraps `__setattr__`, or installs a default one, so that writes to listed names raise `ProtectedFunction`.

Files and modules:

- `wrappers.dfy` (`Wrappers`): `Option` and `Result`.
- `namespace.dfy` (`Namespace`): the class-body dict. It is a sequence of entries with unique keys, in insertion order. `Put` is dict assignment: an existing key keeps its position, and a new key goes at the end. Each value is seen only as two booleans: whether it is callable, and whether its `_pbc__isprotected__` attribute is `True`.
- `pbc.dfy` (`Pbc`): the error and its message, and the assignment guard `Guard`. It also holds the marker's effect on a value (`Protect`) and the class factory as functions: `Inherited`, `Prepare`, `Scan`, `BuildList`. All the lemmas about class creation are here too.
- `metaclass.dfy` (`PbcMeta`): the parts of `pbc.py` that change state, written imperatively:
  - the decorator writes a flag on a `FunctionObject`;
  - `__new__`'s two loops are `CollectInherited` and `ScanNamespace`, each proved equal to its function;
  - `Registry` holds the classes created so far. `Registry.Build` runs `__new__` and adds a class only on success. `Registry.Assign` checks the target class's list when the write happens.
- `examples.dfy` (`Examples`): the two demonstration scripts, replayed on the model.

A base is either a class the registry created (`Registered`), whose list
`getattr` finds, or a `Plain` class without a list, which is the
`getattr(..., None)` case at pbc.py:77. A registered base must already exist
when a class is built on it.

Three points where the code's behaviour is easy to misread:

- Assigning to a class attribute, such as `Inherit.setvalue = 10` at ex02.py:15, goes through the metaclass. It never reaches the class's own `__setattr__`, so nothing guards it. The comment at ex02.py:14 notes that it still works. The model does not treat it as refused.
- Checking every body name against the inherited list and then collecting the flagged names would be two passes. The code does both in one loop, checking against a list that grows as it goes. `ScanIsTwoPass` proves the two are equal for a dict, because keys are unique.
- The scan covers the whole namespace after preparation. That includes `_pbc__protected_functions__` and `__setattr__`, which the metaclass puts there itself. So if a class protects its own `__setattr__`, every subclass is refused (`ProtectedSetattrBlocksSubclasses`), even one with an empty body.

## Model

| member | source | states |
|---|---|---|
| Namespace.PutIsAssignment | pbc.py:74-87 | Assigning into the namespace dict overwrites an existing key in place and appends a new key at the end. Every other key keeps its value, and keys stay unique. |
| Pbc.MessageNamesMember | pbc.py:45-51 | The exception text names the member, and the name can be read back out of it. No other text gives that name. |
| Pbc.Guard | pbc.py:54-63 | The wrapped `__setattr__` refuses a write with `ProtectedFunction(name)` exactly when the target has a list and `name` is on it. Any other write is passed on with the same name and value, including when the target has no list. |
| PbcMeta.Registry.Assign | pbc.py:57-62 | A write to an object of a registered class is refused exactly when the name is on that class's list as it stands when the write happens. Otherwise the write is passed on unchanged. |
| PbcMeta.ProtectMethod | pbc.py:107-121 | The decorator sets the flag to True on the object it is given, leaves its callability alone, and returns that same object. |
| Pbc.ProtectIdempotent | pbc.py:120-121 | Marking twice has the same effect as marking once. |
| PbcMeta.CollectInherited | pbc.py:74-79 | The loop over the bases, starting from a fresh empty list, produces `Inherited(bases)`. |
| Pbc.InheritedAppend | pbc.py:76-79 | The inherited list of two runs of bases, one after the other, is their two inherited lists joined. |
| Pbc.InheritedSplit | pbc.py:76-79 | Each base's list appears in the inherited list whole and in declaration order, between the lists of the bases before it and after it. A base without a list adds nothing. |
| Pbc.InheritedNames | pbc.py:76-79 | A name is inherited exactly when some base's list holds it. |
| Pbc.InheritedIncludesEach | pbc.py:74-95 | Every name on any base's list is on the new class's list when creation succeeds, so the list is a superset of each base's list. |
| Pbc.PrepareShape | pbc.py:74-87 | After the `ns` writes, the body's entries keep their positions. The `_pbc__protected_functions__` entry becomes the fresh, non-callable list, and a user `__setattr__` becomes its wrapper. The list key and then a default, unflagged `__setattr__` are appended when missing. |
| Pbc.PrepareHasKey | pbc.py:74-87 | The prepared namespace holds exactly the body's keys plus `_pbc__protected_functions__` and `__setattr__`. |
| Pbc.MarkedAdjusted | pbc.py:81-95 | A body name is collected exactly when it is not the list key, its flag is True, and it is callable, or it is `__setattr__`, whose wrapper is a function and keeps the user hook's flag. |
| PbcMeta.ScanNamespace | pbc.py:89-95 | The loop over `ns.items()` gives the same result as `Scan`. A name already on the growing list raises; otherwise flagged callables are appended as the loop goes. |
| Pbc.ScanIsTwoPass | pbc.py:89-95 | For a dict, the one-pass scan equals a two-pass reading. First, fail on the first entry whose name is inherited. Otherwise, return the inherited list followed by the flagged names in namespace order. |
| Pbc.BuildSucceeds | pbc.py:72-97 | Creation succeeds exactly when no body key, and neither `_pbc__protected_functions__` nor `__setattr__`, is inherited. The class's list is then the inherited list followed by the body's collected names, in body order. |
| Pbc.BuildFails | pbc.py:89-91 | Creation fails with `ProtectedFunction(n)` exactly when `n` is the first inherited name met in the prepared namespace's iteration order. |
| Pbc.RedeclarationFails | pbc.py:89-91 | A body that declares a name some base protects is refused, whether or not it flags that name again. The error names an inherited name. |
| Pbc.ProtectedSetattrBlocksSubclasses | pbc.py:81-91 | Once `__setattr__` is inherited as protected, creating any subclass fails. |
| Pbc.ListKeyNeverCollected | pbc.py:74-95 | A created class's list never holds `_pbc__protected_functions__`, provided its bases' lists do not. |
| Pbc.UnflaggedBodyAddsNothing | pbc.py:89-95 | A body that flags nothing creates a class whose list is exactly the inherited list. |
| Pbc.MarkedMethodIsProtected | pbc.py:93-95 | A callable that went through `protectmethod` is on the list of the class that declares it. |
| Pbc.ProtectionIsTransitive | pbc.py:76-95 | Suppose A protects a name, B is built on A, and C is built on B. Then C refuses a redeclaration of that name, and C's guard refuses writes to it. |
| PbcMeta.Registry.Build | pbc.py:72-97 | On failure it returns the error and the registry is unchanged, so no class is produced. On success exactly one fresh class is added, holding the prepared namespace and `BuildList`'s list. Every existing class and list is left unchanged, and every registered base's list names are on the new list. |
| Examples.PbcHasEmptyList | pbc.py:100-104 | `PBC` itself is created with an empty list. |
| Examples.ProtectedInitIsCollected | ex01.py:4-8 | `ProtectedExample` gets the list `["__init__"]`. |
| Examples.RedeclaredInitIsRefused | ex01.py:11-14 | `Inherit`, which redeclares `__init__` without the decorator, is refused with `ProtectedFunction("__init__")`. |
| Examples.FirstScript | ex01.py:1-14 | Running the first script against a fresh registry ends with `ProtectedFunction("__init__")`, and only `PBC` and `ProtectedExample` are registered. |
| Examples.ProtectedSetvalueIsCollected | ex02.py:4-8 | `ProtectedExample` of the second script gets the list `["setvalue"]`. |
| Examples.EmptySubclassInherits | ex02.py:11-12 | `Inherit`, with an empty body, is created with the list `["setvalue"]`. |
| Examples.InheritedSetvalueIsGuarded | ex02.py:11-18 | On an instance of `Inherit`, the guard, given the list the model computes for `Inherit`, refuses a write to `setvalue` and passes a write to `value` on. |

## Left out

- `ABCMeta.__new__`, the ABC machinery and the `*args, **kwargs` it is passed (pbc.py:39, 42, 97) belong to the host library. A successful return is modelled as "a class is created with this name, these bases and this namespace".
- What happens to a write after the guard passes it on (pbc.py:62, 84-86) is not modelled. The model records only the refuse-or-forward decision. Two things in the code suggest such writes would not work as written: line 62 calls the wrapped hook without `self`, and the default hook's `setattr` call would enter `__setattr__` again.
- Class-level assignment (`Inherit.setvalue = 10`, ex02.py:15) goes through the metaclass, not the class's `__setattr__`, and nothing guards it. The model has no operation for it.
- Writing straight into a class's `__dict__`, the bypass documented at pbc.py:6-7, is outside the guard and not modelled.
- Python reflection is reduced to booleans and options:
  - `callable(obj)` and `getattr(obj, '_pbc__isprotected__', False) is True` are each a boolean on the entry;
  - a base's list is the one the registry holds for it; a list attached to a class by other means, or reached through a non-PBC class's MRO, is not modelled;
  - the `__slots__` of `PBC` (pbc.py:104) has no effect here.
- PbcMeta.Registry.Assign: identifies an object with its class. An instance attribute that shadows `_pbc__protected_functions__` is not modelled.
- The namespace records callability and the flag of each value, not object identity. One function object stored under two names counts as two records. `PbcMeta.FunctionObject` models the object the decorator writes to, and the namespace holds a snapshot of it.
- PbcMeta.ProtectMethod: covers only objects that accept a new attribute. On an object that refuses the write at pbc.py:120, such as a `property`, a builtin like `len`, a bound method, an `int` or a `str`, Python raises `AttributeError`; that error is not modelled, and the decorator here always succeeds. `Pbc.Wrapped` likewise assumes the flag sits in the object's own `__dict__`, which `functools.wraps` copies to the wrapper; a True flag that comes only from the object's type is lost in Python but kept in the model.
- Nothing in the source involves concurrency, I/O or floating point.
