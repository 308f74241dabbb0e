/** The registry of loaded modules and their aliases. */
module ModuleRegistry {
  import opened Bytes
  import opened PeImage
  import opened PeExports

  const CAPACITY: nat := 128
  const ALIAS_CAPACITY: nat := 128
  const NAME_CAPACITY: nat := 128

  datatype Status = Done | InvalidArgument | DuplicateModule | RegistryFull | ModuleNotFound

  datatype NativeExport = NativeExport(
    name: Option<CString>, forwarder: Option<CString>, ordinal: uint32, hasOrdinal: bool, guestAddress: uint64)

  datatype Module =
    | PeModule(name: CString, image: Image, loadBase: uint64)
    | NativeModule(name: CString, exports: seq<NativeExport>)

  datatype Alias = Alias(contract: CString, target: CString)

  datatype Registry = Registry(modules: seq<Module>, aliases: seq<Alias>)

  // Names are compared ignoring ASCII case

  function Fold(c: uint8): uint8 {
    if 0x41 <= c <= 0x5a then c + 0x20 else c
  }

  function Folded(s: seq<uint8>): (r: seq<uint8>)
    ensures |r| == |s|
  {
    seq(|s|, k requires 0 <= k < |s| => Fold(s[k]))
  }

  predicate SameName(a: CString, b: CString) {
    Folded(a) == Folded(b)
  }

  method EqualIgnoreCase(left: CString, right: CString) returns (same: bool)
    ensures same == SameName(left, right)
  {
    var k := 0;
    while k < |left| && k < |right|
      invariant k <= |left| && k <= |right|
      invariant Folded(left)[..k] == Folded(right)[..k]
    {
      if Fold(left[k]) != Fold(right[k]) {
        assert Folded(left)[k] != Folded(right)[k];
        return false;
      }
      assert Folded(left)[..k + 1] == Folded(left)[..k] + [Fold(left[k])];
      assert Folded(right)[..k + 1] == Folded(right)[..k] + [Fold(right[k])];
      k := k + 1;
    }
    assert |left| == |right| ==> Folded(left)[..k] == Folded(left) && Folded(right)[..k] == Folded(right);
    same := |left| == |right|;
  }

  predicate ValidName(name: CString) {
    1 <= |name| < NAME_CAPACITY
  }

  // Lookups: the first match

  function FindIn(modules: seq<Module>, name: CString, from: nat): (r: Option<nat>)
    requires from <= |modules|
    ensures r.Some? ==> from <= r.value < |modules| && SameName(modules[r.value].name, name)
    ensures r.Some? ==> forall k :: from <= k < r.value ==> !SameName(modules[k].name, name)
    ensures r.None? ==> forall k :: from <= k < |modules| ==> !SameName(modules[k].name, name)
    decreases |modules| - from
  {
    if from == |modules| then None
    else if SameName(modules[from].name, name) then Some(from)
    else FindIn(modules, name, from + 1)
  }

  function FindAliasIn(aliases: seq<Alias>, name: CString, from: nat): (r: Option<nat>)
    requires from <= |aliases|
    ensures r.Some? ==> from <= r.value < |aliases| && SameName(aliases[r.value].contract, name)
    ensures r.Some? ==> forall k :: from <= k < r.value ==> !SameName(aliases[k].contract, name)
    ensures r.None? ==> forall k :: from <= k < |aliases| ==> !SameName(aliases[k].contract, name)
    decreases |aliases| - from
  {
    if from == |aliases| then None
    else if SameName(aliases[from].contract, name) then Some(from)
    else FindAliasIn(aliases, name, from + 1)
  }

  function Find(r: Registry, name: CString): Option<nat> {
    FindIn(r.modules, name, 0)
  }

  function FindAlias(r: Registry, name: CString): Option<nat> {
    FindAliasIn(r.aliases, name, 0)
  }

  predicate Taken(r: Registry, name: CString) {
    Find(r, name).Some? || FindAlias(r, name).Some?
  }

  /** The module a name stands for: registered itself, or through one alias. */
  function ResolveModule(r: Registry, name: CString): (m: Option<nat>)
    ensures m.Some? ==> m.value < |r.modules|
  {
    if Find(r, name).Some? then Find(r, name)
    else if FindAlias(r, name).None? then None
    else Find(r, r.aliases[FindAlias(r, name).value].target)
  }

  // What a table of native exports must satisfy

  function Text(s: Option<CString>): CString {
    if s.Some? then s.value else []
  }

  predicate NativeExportOk(e: NativeExport) {
    && (Text(e.name) != [] || e.hasOrdinal)
    && (e.guestAddress != 0 || Text(e.forwarder) != [])
    && !(e.guestAddress != 0 && e.forwarder.Some?)
  }

  /** The candidate repeats an earlier entry's name or ordinal. */
  predicate Repeats(candidate: NativeExport, existing: NativeExport) {
    || (Text(candidate.name) != [] && existing.name == candidate.name)
    || (candidate.hasOrdinal && existing.hasOrdinal && candidate.ordinal == existing.ordinal)
  }

  predicate NativeTableOk(exports: seq<NativeExport>) {
    && (forall k :: 0 <= k < |exports| ==> NativeExportOk(exports[k]))
    && (forall j, k :: 0 <= j < k < |exports| ==> !Repeats(exports[k], exports[j]))
  }

  // The registry's own invariant

  predicate NamesDistinct(r: Registry) {
    && (forall j, k :: 0 <= j < k < |r.modules| ==> !SameName(r.modules[j].name, r.modules[k].name))
    && (forall j, k :: 0 <= j < k < |r.aliases| ==> !SameName(r.aliases[j].contract, r.aliases[k].contract))
    && (forall j, k :: 0 <= j < |r.modules| && 0 <= k < |r.aliases| ==> !SameName(r.modules[j].name, r.aliases[k].contract))
  }

  predicate ModuleOk(m: Module) {
    && ValidName(m.name)
    && (m.NativeModule? ==> m.exports != [] && NativeTableOk(m.exports))
    && (m.PeModule? ==> |m.image.header.directories| == DIRECTORY_COUNT)
  }

  ghost predicate RegistryOk(r: Registry) {
    && |r.modules| <= CAPACITY && |r.aliases| <= ALIAS_CAPACITY && NamesDistinct(r)
    && (forall k :: 0 <= k < |r.modules| ==> ModuleOk(r.modules[k]))
    && (forall k :: 0 <= k < |r.aliases| ==> ValidName(r.aliases[k].contract))
    && (forall k :: 0 <= k < |r.aliases| ==> exists j :: 0 <= j < |r.modules| && r.modules[j].name == r.aliases[k].target)
  }

  // The operations

  function AdmitName(r: Registry, name: CString): Status {
    if Taken(r, name) then DuplicateModule
    else if |r.modules| >= CAPACITY then RegistryFull
    else Done
  }

  function Add(r: Registry, name: CString, image: Image, mappedSize: nat, loadBase: uint64): (Status, Registry) {
    if mappedSize != image.header.imageSize || !ValidName(name) then (InvalidArgument, r)
    else if AdmitName(r, name) != Done then (AdmitName(r, name), r)
    else (Done, r.(modules := r.modules + [PeModule(name, image, loadBase)]))
  }

  function AddNative(r: Registry, name: CString, exports: seq<NativeExport>): (Status, Registry) {
    if exports == [] || !ValidName(name) then (InvalidArgument, r)
    else if AdmitName(r, name) != Done then (AdmitName(r, name), r)
    else if !NativeTableOk(exports) then (InvalidArgument, r)
    else (Done, r.(modules := r.modules + [NativeModule(name, exports)]))
  }

  function AddAlias(r: Registry, contract: CString, target: CString): (Status, Registry) {
    if !ValidName(contract) || !ValidName(target) then (InvalidArgument, r)
    else if Taken(r, contract) then (DuplicateModule, r)
    else if Find(r, target).None? then (ModuleNotFound, r)
    else if |r.aliases| >= ALIAS_CAPACITY then (RegistryFull, r)
    else (Done, r.(aliases := r.aliases + [Alias(contract, r.modules[Find(r, target).value].name)]))
  }

  class RegistryTable {
    var modules: seq<Module>
    var aliases: seq<Alias>

    constructor ()
      ensures Value() == Registry([], [])
    {
      modules, aliases := [], [];
    }

    function Value(): Registry
      reads this
    {
      Registry(modules, aliases)
    }

    method FindModule(name: CString) returns (r: Option<nat>)
      ensures r == Find(Value(), name)
    {
      var index := 0;
      while index < |modules|
        invariant index <= |modules|
        invariant FindIn(modules, name, index) == FindIn(modules, name, 0)
      {
        var same := EqualIgnoreCase(modules[index].name, name);
        if same {
          return Some(index);
        }
        index := index + 1;
      }
      r := None;
    }

    method FindContract(name: CString) returns (r: Option<nat>)
      ensures r == FindAlias(Value(), name)
    {
      var index := 0;
      while index < |aliases|
        invariant index <= |aliases|
        invariant FindAliasIn(aliases, name, index) == FindAliasIn(aliases, name, 0)
      {
        var same := EqualIgnoreCase(aliases[index].contract, name);
        if same {
          return Some(index);
        }
        index := index + 1;
      }
      r := None;
    }

    method Register(name: CString, image: Image, mappedSize: nat, loadBase: uint64) returns (status: Status)
      modifies this
      ensures (status, Value()) == Add(old(Value()), name, image, mappedSize, loadBase)
    {
      if mappedSize != image.header.imageSize || !ValidName(name) {
        return InvalidArgument;
      }
      var module_ := FindModule(name);
      var contract := FindContract(name);
      if module_.Some? || contract.Some? {
        return DuplicateModule;
      }
      if |modules| >= CAPACITY {
        return RegistryFull;
      }
      modules := modules + [PeModule(name, image, loadBase)];
      status := Done;
    }

    method RegisterNative(name: CString, exports: seq<NativeExport>) returns (status: Status)
      modifies this
      ensures (status, Value()) == AddNative(old(Value()), name, exports)
    {
      if exports == [] || !ValidName(name) {
        return InvalidArgument;
      }
      var module_ := FindModule(name);
      var contract := FindContract(name);
      if module_.Some? || contract.Some? {
        return DuplicateModule;
      }
      if |modules| >= CAPACITY {
        return RegistryFull;
      }
      var ok := CheckNativeTable(exports);
      if !ok {
        return InvalidArgument;
      }
      modules := modules + [NativeModule(name, exports)];
      status := Done;
    }

    method RegisterAlias(contract: CString, target: CString) returns (status: Status)
      modifies this
      ensures (status, Value()) == AddAlias(old(Value()), contract, target)
    {
      if !ValidName(contract) || !ValidName(target) {
        return InvalidArgument;
      }
      var module_ := FindModule(contract);
      var taken := FindContract(contract);
      if module_.Some? || taken.Some? {
        return DuplicateModule;
      }
      var named := FindModule(target);
      if named.None? {
        return ModuleNotFound;
      }
      if |aliases| >= ALIAS_CAPACITY {
        return RegistryFull;
      }
      aliases := aliases + [Alias(contract, modules[named.value].name)];
      status := Done;
    }
  }

  method CheckNativeTable(exports: seq<NativeExport>) returns (ok: bool)
    ensures ok == NativeTableOk(exports)
  {
    var index := 0;
    while index < |exports|
      invariant index <= |exports|
      invariant forall k :: 0 <= k < index ==> NativeExportOk(exports[k])
      invariant forall j, k :: 0 <= j < k < index ==> !Repeats(exports[k], exports[j])
    {
      var candidate := exports[index];
      if !NativeExportOk(candidate) {
        return false;
      }
      var previous := 0;
      while previous < index
        invariant previous <= index
        invariant forall j :: 0 <= j < previous ==> !Repeats(candidate, exports[j])
      {
        if Repeats(candidate, exports[previous]) {
          return false;
        }
        previous := previous + 1;
      }
      index := index + 1;
    }
    ok := true;
  }

  // What every operation keeps

  lemma SameNameBackwards()
    ensures forall a: CString, b: CString :: SameName(a, b) ==> SameName(b, a)
  {
  }

  lemma ModuleAppended(r: Registry, m: Module)
    requires RegistryOk(r) && ModuleOk(m) && !Taken(r, m.name) && |r.modules| < CAPACITY
    ensures RegistryOk(r.(modules := r.modules + [m])) && Extends(r, r.(modules := r.modules + [m]))
  {
    hide SameName, ModuleOk, ValidName;
    SameNameBackwards();
    var after := r.(modules := r.modules + [m]);
    forall k | 0 <= k < |after.aliases|
      ensures exists j :: 0 <= j < |after.modules| && after.modules[j].name == after.aliases[k].target
    {
      var j :| 0 <= j < |r.modules| && r.modules[j].name == r.aliases[k].target;
      assert after.modules[j] == r.modules[j];
    }
  }

  /** Every operation keeps names distinct and alias targets registered, and moves nothing. */
  lemma AddKeeps(r: Registry, name: CString, image: Image, mappedSize: nat, loadBase: uint64)
    requires RegistryOk(r) && |image.header.directories| == DIRECTORY_COUNT
    ensures RegistryOk(Add(r, name, image, mappedSize, loadBase).1) && Extends(r, Add(r, name, image, mappedSize, loadBase).1)
  {
    hide RegistryOk, SameName, Taken;
    if Add(r, name, image, mappedSize, loadBase).0 == Done {
      ModuleAppended(r, PeModule(name, image, loadBase));
    }
  }

  lemma AddNativeKeeps(r: Registry, name: CString, exports: seq<NativeExport>)
    requires RegistryOk(r)
    ensures RegistryOk(AddNative(r, name, exports).1) && Extends(r, AddNative(r, name, exports).1)
  {
    hide RegistryOk, SameName, NativeTableOk, Taken;
    if AddNative(r, name, exports).0 == Done {
      ModuleAppended(r, NativeModule(name, exports));
    }
  }

  lemma AddAliasKeeps(r: Registry, contract: CString, target: CString)
    requires RegistryOk(r)
    ensures RegistryOk(AddAlias(r, contract, target).1) && Extends(r, AddAlias(r, contract, target).1)
  {
    hide SameName, ModuleOk;
    SameNameBackwards();
  }

  /** Everything registered stays where it is. */
  predicate Extends(before: Registry, after: Registry) {
    before.modules <= after.modules && before.aliases <= after.aliases
  }
}
