# XAuth method registry

A Dafny model of the XAuth manager of strongSwan's charon daemon
(`xauth_manager.c`). The manager is an ordered catalog of registrations
(`xauth_entry_t`). Each one binds an XAuth method type, a vendor id (0 for
the default methods) and a role (`XAUTH_SERVER` or `XAUTH_PEER`) to a
constructor.

- `xauth_manager_create` starts with an empty catalog.
- `add_method` appends one entry.
- `remove_method` removes every entry whose constructor is the given one.
- `create_instance` scans the catalog in insertion order. It calls the
  constructor of each entry whose (type, vendor, role) matches exactly. It
  returns the first result that is not NULL, or NULL if there is none.

Files:

- `wrappers.dfy`: `Option`, which stands in for a pointer that may be NULL.
- `xauth_manager.dfy`: module `XauthManager`. It holds the data model
  (`Entry`, `Role`, `Vendor`, `Request`, `Catalog`) and the operations. The
  operations are pure functions (`Create`, `AddMethod`, `RemoveMethod`,
  `CreateInstance`). Two methods, `RemoveMethodScan` and
  `CreateInstanceScan`, mirror the enumerator loops of the C code and are
  proved equal to those functions.
- `xauth_manager_lemmas.dfy`: module `XauthManagerLemmas`. It holds the
  properties that relate several operations.

Constructors are opaque values of a type parameter `C`. They are compared
with `==`, as the C code compares function pointers. Calling a constructor
is modelled by a total function `construct: (C, I, I) -> Option<M>` that the
caller passes in. It may decline with `None`. `I` stands for
`identification_t` and `M` for `xauth_method_t`. The catalog is a value, so
`create_instance` cannot change it: `CreateInstance` returns only the
method.

## Model

| member | source | states |
|---|---|---|
| XauthManager.Create | src/libcharon/sa/authenticators/xauth/xauth_manager.c:145-161 | a new manager starts with an empty catalog |
| XauthManager.AddMethod | src/libcharon/sa/authenticators/xauth/xauth_manager.c:71-85 | registration grows the catalog by exactly one entry, which carries the given type, vendor, role and constructor and sits at the end; all earlier entries are unchanged and in the same order |
| XauthManager.RemoveMethod | src/libcharon/sa/authenticators/xauth/xauth_manager.c:87-105 | after unregistering a constructor no entry carries it, even if it was registered several times, and the catalog never grows |
| XauthManager.RemoveMethodScan | src/libcharon/sa/authenticators/xauth/xauth_manager.c:93-104 | the enumerator loop that calls `remove_at` on each entry with the constructor leaves exactly the catalog that `RemoveMethod` specifies |
| XauthManager.RemoveMethodSnoc | src/libcharon/sa/authenticators/xauth/xauth_manager.c:95-101 | the scan decides each entry on its own: an entry added at the end is dropped if it carries the constructor and kept last otherwise |
| XauthManager.CreateInstance | src/libcharon/sa/authenticators/xauth/xauth_manager.c:107-132 | the result is NULL exactly when every entry either fails to match (type, vendor, role) or has a constructor that declines; otherwise it is the method built by the earliest matching entry whose constructor succeeds |
| XauthManager.CreateInstanceScan | src/libcharon/sa/authenticators/xauth/xauth_manager.c:115-131 | the loop with its early `break` returns the result `CreateInstance` specifies; it calls the constructors of exactly the matching entries in catalog order, all of them when nothing succeeds, and otherwise those up to the one that succeeds and none after it; every call but a successful last one declined |
| XauthManager.MatchingIndicesSpec | src/libcharon/sa/authenticators/xauth/xauth_manager.c:117-120 | the entries the loop calls below a position are exactly those whose (type, vendor, role) equals the request, listed in strictly increasing catalog order |
| XauthManagerLemmas.RemoveMethodContents | src/libcharon/sa/authenticators/xauth/xauth_manager.c:95-101 | unregistering keeps every entry with another constructor as many times as it occurred and adds nothing |
| XauthManagerLemmas.RemoveMethodSubMultiset | src/libcharon/sa/authenticators/xauth/xauth_manager.c:95-101 | every entry left after unregistering was in the catalog, at most as many times |
| XauthManagerLemmas.RemoveMethodKeepsCount | src/libcharon/sa/authenticators/xauth/xauth_manager.c:95-101 | an entry with another constructor occurs as often after unregistering as before |
| XauthManagerLemmas.RemoveMethodAppend | src/libcharon/sa/authenticators/xauth/xauth_manager.c:95-101 | unregistering distributes over concatenation, so the surviving entries keep their relative order |
| XauthManagerLemmas.RemoveMethodNoop | src/libcharon/sa/authenticators/xauth/xauth_manager.c:95-102 | unregistering leaves the catalog unchanged if and only if no entry carries the constructor |
| XauthManagerLemmas.RemoveMethodIdempotent | src/libcharon/sa/authenticators/xauth/xauth_manager.c:95-102 | unregistering twice equals unregistering once |
| XauthManagerLemmas.RemoveMethodCommutes | src/libcharon/sa/authenticators/xauth/xauth_manager.c:95-102 | unregistering two constructors gives the same catalog in either order |
| XauthManagerLemmas.RemoveMethodAfterAdd | src/libcharon/sa/authenticators/xauth/xauth_manager.c:83 | unregistering right after a registration drops the new entry if it carries the constructor, and otherwise keeps it at the end |
| XauthManagerLemmas.AddThenRemoveRestores | src/libcharon/sa/authenticators/xauth/xauth_manager.c:83 | registering a constructor that is not yet present and then unregistering it restores the catalog |
| XauthManagerLemmas.CreateInstanceAppend | src/libcharon/sa/authenticators/xauth/xauth_manager.c:117-126 | registration order is priority: later entries are consulted only when all earlier ones yield nothing |
| XauthManagerLemmas.CreateInstanceAfterAdd | src/libcharon/sa/authenticators/xauth/xauth_manager.c:117-126 | a new registration never overrides an earlier one that succeeds; it is used only when every earlier entry yields nothing |
| XauthManagerLemmas.CreateInstanceIgnoresMismatch | src/libcharon/sa/authenticators/xauth/xauth_manager.c:119-120 | an entry whose type, vendor id or role differs from the request never influences the result, wherever it sits; this covers an entry with the same type and role but another vendor |
| XauthManagerLemmas.CreateInstanceAfterRemove | src/libcharon/sa/authenticators/xauth/xauth_manager.c:97-99 | resolving after unregistering a constructor equals resolving on the old catalog with that constructor always declining; no other constructor is affected |
| XauthManagerLemmas.RemovedDuplicatesUnresolvable | src/libcharon/sa/authenticators/xauth/xauth_manager.c:97-99 | if every entry that could serve a request carries one constructor, registered once or many times, then after unregistering it the request resolves to NULL |
| XauthManagerLemmas.ExampleWalkThrough | src/libcharon/sa/authenticators/xauth/xauth_manager.c:71-132 | a concrete run: a declining constructor is skipped in favour of a later one for the same triple; unregistering removes entries one constructor at a time; a vendor 5 entry is not found by a vendor 0 request |

## Left out

- The reader-writer lock (`write_lock`, `read_lock`, `unlock`). The model is sequential and each operation is one pure function, so it is atomic by construction. A constructor that calls back into `add_method` or `remove_method` would deadlock, because they ask for `write_lock` (lines 82 and 93) while the `read_lock` taken at line 115 is still held; this is not modelled. Whether a nested `create_instance` blocks depends on `rwlock_t`, which is not part of this model.
- `malloc_thing`, `free` and `destroy`. These are memory management. The only visible effect of `destroy` is that all entries are released. The result of `malloc_thing` is used unchecked at lines 77-80; a NULL result would be undefined behaviour, which is not modelled.
- `linked_list_t` and `enumerator_t`. They are not part of this model. The list is a `seq`, and `remove_at` is removal at the enumerator position in `RemoveMethodScan`.
- The `METHOD`/`INIT` vtable set-up in `xauth_manager_create`. It only wires the functions to the public interface.
- The XAuth method implementations and `identification_t`. They are type parameters. The constructor call is the `construct` parameter. Because it is a function, one constructor given the same identities always gives the same answer. The C constructors may have side effects, and the model does not cover them.
- `xauth_type_t`: modelled as `nat`, because the enum's declaration is not part of this model. The vendor id is a 32-bit unsigned value, modelled as the newtype `Vendor`.
