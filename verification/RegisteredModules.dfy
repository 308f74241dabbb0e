/** What a registration makes available: the module under its name, and its exports under their names. */
module RegisteredModules {
  import opened Bytes
  import P = PeImage
  import opened PeExports
  import opened ModuleRegistry
  import opened Forwarders
  import opened SymbolResolution
  import Layout = ExportLayout

  // Names

  /** The i-th letter of the alphabet, large or small. */
  predicate SameLetter(a: uint8, b: uint8) {
    exists i: nat :: i < 26 && Letter(a, i) && Letter(b, i)
  }

  predicate Letter(c: uint8, i: nat) {
    c == 0x41 + i || c == 0x61 + i
  }

  lemma FoldsAlike(a: uint8, b: uint8)
    ensures Fold(a) == Fold(b) <==> a == b || SameLetter(a, b)
  {
    if 0x41 <= a <= 0x5a && Fold(a) == Fold(b) {
      assert Letter(a, a - 0x41) && Letter(b, a - 0x41);
    } else if 0x41 <= b <= 0x5a && Fold(a) == Fold(b) {
      assert Letter(a, b - 0x41) && Letter(b, b - 0x41);
    }
  }

  /** Two names are the same if and only if they differ at most in the case of ASCII letters. */
  lemma SameNameMeaning(a: CString, b: CString)
    ensures SameName(a, b) <==> |a| == |b| && forall k :: 0 <= k < |a| ==> a[k] == b[k] || SameLetter(a[k], b[k])
  {
    hide Fold, SameLetter;
    forall k | 0 <= k < |a| && k < |b|
      ensures Folded(a)[k] == Folded(b)[k] <==> a[k] == b[k] || SameLetter(a[k], b[k])
    {
      FoldsAlike(a[k], b[k]);
    }
    if |a| == |b| && forall k :: 0 <= k < |a| ==> a[k] == b[k] || SameLetter(a[k], b[k]) {
      assert Folded(a) == Folded(b);
    }
  }

  /** Some module or alias goes by the name. */
  ghost predicate Known(r: Registry, name: CString) {
    || (exists k :: 0 <= k < |r.modules| && SameName(r.modules[k].name, name))
    || (exists k :: 0 <= k < |r.aliases| && SameName(r.aliases[k].contract, name))
  }

  lemma KnownIffTaken(r: Registry, name: CString)
    ensures Known(r, name) <==> Taken(r, name)
  {
    hide SameName;
  }

  // Modules

  /** What makes a registration succeed, and what is told when it does not; one that fails changes nothing. */
  lemma LoadsIff(r: Registry, name: CString, image: P.Image, mappedSize: nat, loadBase: uint64)
    ensures var (status, after) := Add(r, name, image, mappedSize, loadBase);
            var sized := mappedSize == image.header.imageSize && 1 <= |name| <= 127;
            && (status == Done <==> sized && !Known(r, name) && |r.modules| < 128)
            && (status == InvalidArgument <==> !sized)
            && (status == DuplicateModule <==> sized && Known(r, name))
            && (status == RegistryFull <==> sized && !Known(r, name) && |r.modules| >= 128)
            && after == if status == Done then r.(modules := r.modules + [PeModule(name, image, loadBase)]) else r
  {
    KnownIffTaken(r, name);
  }

  /** An export has a name or an ordinal, and an address or a forwarder but not both. */
  predicate Usable(e: NativeExport) {
    && ((e.name.Some? && e.name.value != []) || e.hasOrdinal)
    && (if e.guestAddress == 0 then e.forwarder.Some? && e.forwarder.value != [] else e.forwarder.None?)
  }

  /** Two exports share a name that is not empty, or an ordinal. */
  predicate Clash(a: NativeExport, b: NativeExport) {
    || (a.name.Some? && a.name.value != [] && a.name == b.name)
    || (a.hasOrdinal && b.hasOrdinal && a.ordinal == b.ordinal)
  }

  lemma TableOkIff(exports: seq<NativeExport>)
    ensures NativeTableOk(exports) <==>
            && (forall k :: 0 <= k < |exports| ==> Usable(exports[k]))
            && (forall j, k :: 0 <= j < k < |exports| ==> !Clash(exports[j], exports[k]))
  {
    assert forall e: NativeExport :: NativeExportOk(e) <==> Usable(e);
    assert forall a: NativeExport, b: NativeExport :: Repeats(b, a) <==> Clash(a, b);
  }

  lemma NativeLoadsIff(r: Registry, name: CString, exports: seq<NativeExport>)
    ensures var (status, after) := AddNative(r, name, exports);
            var named, room := 1 <= |name| <= 127 && exports != [], |r.modules| < 128;
            && (status == Done <==> named && !Known(r, name) && room && NativeTableOk(exports))
            && (status == DuplicateModule <==> named && Known(r, name))
            && (status == RegistryFull <==> named && !Known(r, name) && !room)
            && (status == InvalidArgument <==> !named || (!Known(r, name) && room && !NativeTableOk(exports)))
            && after == if status == Done then r.(modules := r.modules + [NativeModule(name, exports)]) else r
  {
    hide NativeTableOk;
    KnownIffTaken(r, name);
  }

  lemma {:induction false} FindsLast(modules: seq<Module>, m: Module, name: CString, from: nat)
    requires from <= |modules| && SameName(m.name, name) && forall k :: from <= k < |modules| ==> !SameName(modules[k].name, name)
    ensures FindIn(modules + [m], name, from) == Some(|modules|)
    decreases |modules| - from
  {
    hide SameName;
    var all := modules + [m];
    if from < |modules| {
      assert all[from] == modules[from];
      FindsLast(modules, m, name, from + 1);
    } else {
      assert all[from] == m;
    }
  }

  lemma SameNameTransfers(a: CString, b: CString, c: CString)
    requires SameName(a, b)
    ensures SameName(c, a) <==> SameName(c, b)
    ensures |a| == |b|
  {
  }

  /** A new module resolves under its name, in any case. */
  lemma NewModuleResolves(r: Registry, m: Module, other: CString)
    requires !Known(r, m.name) && SameName(m.name, other)
    ensures ResolveModule(r.(modules := r.modules + [m]), other) == Some(|r.modules|)
  {
    hide SameName, FindIn;
    forall k | 0 <= k < |r.modules|
      ensures !SameName(r.modules[k].name, other)
    {
      SameNameTransfers(m.name, other, r.modules[k].name);
    }
    FindsLast(r.modules, m, other, 0);
  }

  /** A name the module's table lists resolves to the load base plus the RVA written for it; a forwarder goes on as written. */
  lemma LoadedSymbolResolves(r: Registry, name: CString, image: P.Image, mappedSize: nat, loadBase: uint64, other: CString, wanted: Wanted,
                             t: Layout.Table, i: nat)
    requires RegistryOk(r) && Layout.Laid(image, t) && Add(r, name, image, mappedSize, loadBase).0 == Done && SameName(name, other)
    requires match wanted
             case ByName(symbol) => Layout.FirstNamed(t.names, symbol, 0).Some? && i == t.names[Layout.FirstNamed(t.names, symbol, 0).value].target
             case ByOrdinal(ordinal) => ordinal == t.ordinalBase + i
    requires i < |t.functions|
    ensures ModulesUsable(Add(r, name, image, mappedSize, loadBase).1)
    ensures var answer := ResolveSymbol(Add(r, name, image, mappedSize, loadBase).1, Request(other, wanted));
            match t.functions[i]
            case Gap => answer == Failed(BadImage(P.ExportNotFound))
            case Code(rva) => answer == if loadBase + rva < TWO_64 then Found(Resolved(|r.modules|, loadBase + rva, 0, false))
                                        else Failed(BadImage(P.InvalidImage))
            case ForwardTo(_, text) =>
              answer == if ParseForwarder(text).None? then Failed(InvalidForwarder)
                        else ResolveFrom(Add(r, name, image, mappedSize, loadBase).1, ParseForwarder(text).value, 1)
  {
    hide RegistryOk, SameName, ExportByName, ExportByOrdinal, ParseForwarder, ResolveModule, Layout.FunctionLaid, Layout.NameLaid, Layout.At,
         Layout.Spans, Taken;
    var after := Add(r, name, image, mappedSize, loadBase).1;
    AddKeeps(r, name, image, mappedSize, loadBase);
    UsableIfOk(after);
    LoadsIff(r, name, image, mappedSize, loadBase);
    NewModuleResolves(r, PeModule(name, image, loadBase), other);
    SameNameTransfers(name, other, name);
    FunctionFits(image, t, i);
    if wanted.ByName? {
      Layout.NameReadsBack(image, t, wanted.symbol);
    } else {
      Layout.OrdinalReadsBack(image, t, wanted.ordinal);
    }
  }

  lemma FunctionFits(image: P.Image, t: Layout.Table, i: nat)
    requires Layout.Laid(image, t) && i < |t.functions|
    ensures t.ordinalBase + i < TWO_32
  {
    hide Layout.At, Layout.NameLaid, Layout.Spans;
    assert Layout.FunctionLaid(image, t, i);
  }

  // Native modules and aliases

  /** In a table without repeats an export is found by its own name and by its own ordinal. */
  lemma NativeFound(exports: seq<NativeExport>, k: nat, wanted: Wanted)
    requires NativeTableOk(exports) && k < |exports| && MatchesNative(exports[k], wanted)
    requires wanted.ByName? ==> wanted.symbol != []
    ensures FindNative(exports, wanted, 0) == Some(k)
  {
    var j := FindNative(exports, wanted, 0).value;
    if j < k {
      assert Repeats(exports[k], exports[j]);
    } else if k < j {
      assert Repeats(exports[j], exports[k]);
    }
  }

  lemma NativeSymbolResolves(r: Registry, name: CString, exports: seq<NativeExport>, other: CString, wanted: Wanted, k: nat)
    requires RegistryOk(r) && AddNative(r, name, exports).0 == Done && SameName(name, other)
    requires k < |exports| && MatchesNative(exports[k], wanted) && (wanted.ByName? ==> wanted.symbol != [])
    ensures ModulesUsable(AddNative(r, name, exports).1)
    ensures var answer := ResolveSymbol(AddNative(r, name, exports).1, Request(other, wanted));
            match exports[k].forwarder
            case None => answer == Found(Resolved(|r.modules|, exports[k].guestAddress, 0, true))
            case Some(text) =>
              answer == if ParseForwarder(text).None? then Failed(InvalidForwarder)
                        else ResolveFrom(AddNative(r, name, exports).1, ParseForwarder(text).value, 1)
  {
    hide RegistryOk, SameName, ParseForwarder, ResolveModule, Taken, NativeTableOk, MatchesNative, FindNative;
    var after := AddNative(r, name, exports).1;
    AddNativeKeeps(r, name, exports);
    UsableIfOk(after);
    NativeLoadsIff(r, name, exports);
    NewModuleResolves(r, NativeModule(name, exports), other);
    SameNameTransfers(name, other, name);
    NativeFound(exports, k, wanted);
  }

  lemma {:induction false} FindsLastAlias(aliases: seq<Alias>, x: Alias, name: CString, from: nat)
    requires from <= |aliases| && SameName(x.contract, name) && forall k :: from <= k < |aliases| ==> !SameName(aliases[k].contract, name)
    ensures FindAliasIn(aliases + [x], name, from) == Some(|aliases|)
    decreases |aliases| - from
  {
    hide SameName;
    var all := aliases + [x];
    if from < |aliases| {
      assert all[from] == aliases[from];
      FindsLastAlias(aliases, x, name, from + 1);
    } else {
      assert all[from] == x;
    }
  }

  /** An alias is admitted exactly for a registered target; then it stands for the module its target stood for. */
  lemma AliasResolves(r: Registry, contract: CString, target: CString, other: CString)
    requires RegistryOk(r) && SameName(contract, other)
    ensures var (status, after) := AddAlias(r, contract, target);
            var named := 1 <= |contract| <= 127 && 1 <= |target| <= 127;
            && (status == Done <==> named && !Known(r, contract) && Find(r, target).Some? && |r.aliases| < 128)
            && (status == InvalidArgument <==> !named)
            && (status == DuplicateModule <==> named && Known(r, contract))
            && (status == ModuleNotFound <==> named && !Known(r, contract) && Find(r, target).None?)
            && (status == RegistryFull <==> named && !Known(r, contract) && Find(r, target).Some? && |r.aliases| >= 128)
            && (status == Done ==> ResolveModule(after, other) == Find(r, target) == ResolveModule(r, target) && after.modules == r.modules)
            && (status != Done ==> after == r)
  {
    hide SameName, FindIn, FindAliasIn, ModuleOk;
    KnownIffTaken(r, contract);
    var (status, after) := AddAlias(r, contract, target);
    if status == Done {
      forall k | 0 <= k < |r.modules|
        ensures !SameName(r.modules[k].name, other)
      {
        SameNameTransfers(contract, other, r.modules[k].name);
      }
      forall k | 0 <= k < |r.aliases|
        ensures !SameName(r.aliases[k].contract, other)
      {
        SameNameTransfers(contract, other, r.aliases[k].contract);
      }
      FindsLastAlias(r.aliases, after.aliases[|r.aliases|], other, 0);
      OwnNameFinds(r, Find(r, target).value);
    }
  }

  /** A registered module is found by its own name. */
  lemma OwnNameFinds(r: Registry, k: nat)
    requires RegistryOk(r) && k < |r.modules|
    ensures Find(r, r.modules[k].name) == Some(k)
  {
    hide SameName, ModuleOk;
    SameNameBackwards();
    assert SameName(r.modules[k].name, r.modules[k].name) by { SameItself(r.modules[k].name); }
  }

  lemma SameItself(name: CString)
    ensures SameName(name, name)
  {
  }

  // Requests that lead nowhere

  /** A name of no use as a module's, and a good one that nothing goes by, are told apart. */
  lemma UnknownTold(r: Registry, q: Request)
    requires RegistryOk(r)
    ensures ModulesUsable(r)
    ensures !(1 <= |q.moduleName| <= 127) ==> ResolveSymbol(r, q) == Failed(BadArgument)
    ensures 1 <= |q.moduleName| <= 127 && !Known(r, q.moduleName) ==> ResolveSymbol(r, q) == Failed(NoSuchModule)
  {
    hide SameName, NativeHop, PeHop, NamesDistinct;
    UsableIfOk(r);
    KnownIffTaken(r, q.moduleName);
  }

  /** What a native module does not list is told from a module that is not there. */
  lemma AbsentTold(r: Registry, q: Request, k: nat)
    requires RegistryOk(r) && 1 <= |q.moduleName| <= 127 && k < |r.modules| && ResolveModule(r, q.moduleName) == Some(k)
    requires r.modules[k].NativeModule? && forall j :: 0 <= j < |r.modules[k].exports| ==> !Lists(r.modules[k].exports[j], q.wanted)
    ensures ModulesUsable(r) && ResolveSymbol(r, q) == Failed(NoSuchExport)
  {
    hide SameName, NamesDistinct;
    UsableIfOk(r);
    var exports := r.modules[k].exports;
    forall j | 0 <= j < |exports|
      ensures !MatchesNative(exports[j], q.wanted)
    {
      assert !Lists(exports[j], q.wanted);
    }
  }

  /** The export has the name asked for, or is listed under the ordinal. */
  predicate Lists(e: NativeExport, wanted: Wanted) {
    if wanted.ByName? then e.name.Some? && e.name.value == wanted.symbol else e.hasOrdinal && e.ordinal == wanted.ordinal
  }
}
