/** Resolving a symbol through aliases and forwarders, as repeated one-hop forwarding. */
module SymbolResolution {
  import opened Bytes
  import P = PeImage
  import opened PeExports
  import opened ModuleRegistry
  import opened Forwarders

  const DEPTH_LIMIT: nat := 16

  datatype Fault =
    | ForwarderLimit | BadArgument | NoSuchModule | InvalidForwarder | NoSuchExport | BadImage(error: P.Error)

  /** index is the resolving module's place in the registry. */
  datatype Resolved = Resolved(index: nat, address: uint64, depth: nat, native: bool)

  datatype Answer = Found(resolved: Resolved) | Failed(fault: Fault)

  /** One hop: an address, another request, or a failure. */
  datatype Hop = Arrives(resolved: Resolved) | Forwards(to: Request) | Fails(fault: Fault)

  function MatchesNative(e: NativeExport, wanted: Wanted): bool {
    match wanted
    case ByOrdinal(ordinal) => e.hasOrdinal && e.ordinal == ordinal
    case ByName(symbol) => e.name == Some(symbol)
  }

  function FindNative(exports: seq<NativeExport>, wanted: Wanted, from: nat): (r: Option<nat>)
    requires from <= |exports|
    ensures r.Some? ==> from <= r.value < |exports| && MatchesNative(exports[r.value], wanted)
    ensures r.None? ==> forall k :: from <= k < |exports| ==> !MatchesNative(exports[k], wanted)
    decreases |exports| - from
  {
    if from == |exports| then None
    else if MatchesNative(exports[from], wanted) then Some(from)
    else FindNative(exports, wanted, from + 1)
  }

  function Forward(forwarder: CString): Hop {
    var request := ParseForwarder(forwarder);
    if request.Some? then Forwards(request.value) else Fails(InvalidForwarder)
  }

  function NativeHop(m: Module, index: nat, wanted: Wanted, depth: nat): Hop
    requires m.NativeModule?
  {
    var found := FindNative(m.exports, wanted, 0);
    if found.None? then Fails(NoSuchExport)
    else
      var e := m.exports[found.value];
      if e.forwarder.Some? then Forward(e.forwarder.value) else Arrives(Resolved(index, e.guestAddress, depth, true))
  }

  function PeHop(m: Module, index: nat, wanted: Wanted, depth: nat): Hop
    requires m.PeModule? && |m.image.header.directories| == P.DIRECTORY_COUNT
  {
    var found := if wanted.ByName? then ExportByName(m.image, wanted.symbol) else ExportByOrdinal(m.image, wanted.ordinal);
    if found.Err? then Fails(BadImage(found.error))
    else if found.value.forwarder.Some? then Forward(found.value.forwarder.value)
    else if m.loadBase > TWO_64 - 1 - found.value.rva then Fails(BadImage(P.InvalidImage))
    else Arrives(Resolved(index, m.loadBase + found.value.rva, depth, false))
  }

  predicate ModulesUsable(r: Registry) {
    forall k :: 0 <= k < |r.modules| ==> ModuleOk(r.modules[k])
  }

  function OneHop(r: Registry, q: Request, depth: nat): Hop
    requires ModulesUsable(r)
  {
    if !ValidName(q.moduleName) then Fails(BadArgument)
    else
      var index := ResolveModule(r, q.moduleName);
      if index.None? then Fails(NoSuchModule)
      else if r.modules[index.value].NativeModule? then NativeHop(r.modules[index.value], index.value, q.wanted, depth)
      else PeHop(r.modules[index.value], index.value, q.wanted, depth)
  }

  /** resolve_symbol_recursive. */
  function ResolveFrom(r: Registry, q: Request, depth: nat): Answer
    requires ModulesUsable(r) && depth <= DEPTH_LIMIT + 1
    decreases DEPTH_LIMIT + 1 - depth
  {
    if depth > DEPTH_LIMIT then Failed(ForwarderLimit)
    else
      match OneHop(r, q, depth)
      case Arrives(resolved) => Found(resolved)
      case Fails(fault) => Failed(fault)
      case Forwards(to) => ResolveFrom(r, to, depth + 1)
  }

  function ResolveSymbol(r: Registry, q: Request): Answer
    requires ModulesUsable(r)
  {
    ResolveFrom(r, q, 0)
  }

  // Resolution is iteration of the one-hop relation

  /** The request after n hops, if every one of them forwarded. */
  function After(r: Registry, q: Request, n: nat): Option<Request>
    requires ModulesUsable(r)
  {
    if n == 0 then Some(q)
    else
      var before := After(r, q, n - 1);
      if before.None? then None
      else
        var hop := OneHop(r, before.value, n - 1);
        if hop.Forwards? then Some(hop.to) else None
  }

  /** After n hops that all forwarded, the answer is still that of the remaining request. */
  lemma {:induction false} ResolveAfter(r: Registry, q: Request, n: nat)
    requires ModulesUsable(r) && n <= DEPTH_LIMIT + 1 && After(r, q, n).Some?
    ensures ResolveSymbol(r, q) == ResolveFrom(r, After(r, q, n).value, n)
  {
    hide OneHop;
    if n > 0 {
      ResolveAfter(r, q, n - 1);
    }
  }

  /** The last request within the limit: the hops before it forwarded, and it ends or the limit is reached. */
  lemma {:induction false} HopsEnd(r: Registry, q: Request, n: nat) returns (m: nat)
    requires ModulesUsable(r) && n <= DEPTH_LIMIT + 1 && After(r, q, n).Some?
    ensures n <= m <= DEPTH_LIMIT + 1 && After(r, q, m).Some?
    ensures m <= DEPTH_LIMIT ==> !OneHop(r, After(r, q, m).value, m).Forwards?
    decreases DEPTH_LIMIT + 1 - n
  {
    hide OneHop;
    if n == DEPTH_LIMIT + 1 || !OneHop(r, After(r, q, n).value, n).Forwards? {
      m := n;
    } else {
      m := HopsEnd(r, q, n + 1);
    }
  }

  lemma {:induction false} HopsBefore(r: Registry, q: Request, n: nat, m: nat)
    requires ModulesUsable(r) && n <= m && After(r, q, m).Some?
    ensures After(r, q, n).Some?
    decreases m - n
  {
    hide OneHop;
    if n < m {
      HopsBefore(r, q, n, m - 1);
    }
  }

  /** An answer is where iterating the one-hop relation ends, at most sixteen hops on. */
  lemma ResolvesIffHopsArrive(r: Registry, q: Request, answer: Resolved)
    requires ModulesUsable(r)
    ensures ResolveSymbol(r, q) == Found(answer) <==>
            exists n :: 0 <= n <= 16 && After(r, q, n).Some? && OneHop(r, After(r, q, n).value, n) == Arrives(answer)
  {
    hide OneHop;
    var m := HopsEnd(r, q, 0);
    ResolveAfter(r, q, m);
    forall n | 0 <= n <= 16 && After(r, q, n).Some? && OneHop(r, After(r, q, n).value, n) == Arrives(answer)
      ensures ResolveSymbol(r, q) == Found(answer)
    {
      ResolveAfter(r, q, n);
    }
  }

  lemma HopDepth(r: Registry, q: Request, depth: nat)
    requires ModulesUsable(r) && OneHop(r, q, depth).Arrives?
    ensures OneHop(r, q, depth).resolved.depth == depth
  {
  }

  lemma DepthIsBounded(r: Registry, q: Request)
    requires ModulesUsable(r) && ResolveSymbol(r, q).Found?
    ensures ResolveSymbol(r, q).resolved.depth <= 16
  {
    hide OneHop;
    var m := HopsEnd(r, q, 0);
    ResolveAfter(r, q, m);
    if m <= DEPTH_LIMIT && OneHop(r, After(r, q, m).value, m).Arrives? {
      HopDepth(r, After(r, q, m).value, m);
    }
  }

  /** The limit error is exactly that of seventeen hops that all forward. */
  lemma LimitIffHopsGoOn(r: Registry, q: Request)
    requires ModulesUsable(r)
    ensures ResolveSymbol(r, q) == Failed(ForwarderLimit) <==> After(r, q, 17).Some?
  {
    hide OneHop;
    var m := HopsEnd(r, q, 0);
    ResolveAfter(r, q, m);
    if m <= DEPTH_LIMIT {
      FaultIsOther(r, After(r, q, m).value, m);
      if After(r, q, DEPTH_LIMIT + 1).Some? {
        HopsBefore(r, q, m + 1, DEPTH_LIMIT + 1);
      }
    }
  }

  lemma FaultIsOther(r: Registry, q: Request, depth: nat)
    requires ModulesUsable(r)
    ensures OneHop(r, q, depth) != Fails(ForwarderLimit)
  {
  }

  // Cycles

  /** Where a request forwards to does not depend on the depth. */
  lemma HopIgnoresDepth(r: Registry, q: Request, d: nat, e: nat)
    requires ModulesUsable(r)
    ensures OneHop(r, q, d).Forwards? <==> OneHop(r, q, e).Forwards?
    ensures OneHop(r, q, d).Forwards? ==> OneHop(r, q, d) == OneHop(r, q, e)
  {
  }

  lemma {:induction false} HopsShift(r: Registry, q: Request, i: nat, j: nat, k: nat)
    requires ModulesUsable(r) && After(r, q, i) == After(r, q, j)
    ensures After(r, q, i + k) == After(r, q, j + k)
    decreases k
  {
    hide OneHop;
    if k > 0 {
      HopsShift(r, q, i, j, k - 1);
      if After(r, q, i + k - 1).Some? {
        HopIgnoresDepth(r, After(r, q, i + k - 1).value, i + k - 1, j + k - 1);
      }
    }
  }

  lemma {:induction false} HopsGoOn(r: Registry, q: Request, i: nat, j: nat, n: nat)
    requires ModulesUsable(r) && i < j && After(r, q, j).Some? && After(r, q, i) == After(r, q, j)
    ensures After(r, q, n).Some?
    decreases n
  {
    hide After;
    if n <= j {
      HopsBefore(r, q, n, j);
    } else {
      HopsGoOn(r, q, i, j, n - (j - i));
      HopsShift(r, q, i, j, n - j);
    }
  }

  /** A forwarder cycle, reached after any number of hops, ends in the limit error. */
  lemma CycleEndsInLimit(r: Registry, q: Request, i: nat, j: nat)
    requires ModulesUsable(r) && i < j && After(r, q, j).Some? && After(r, q, i) == After(r, q, j)
    ensures ResolveSymbol(r, q) == Failed(ForwarderLimit)
  {
    HopsGoOn(r, q, i, j, DEPTH_LIMIT + 1);
    LimitIffHopsGoOn(r, q);
  }

  // What is registered later changes nothing

  lemma {:induction false} FindInExtends(before: seq<Module>, after: seq<Module>, name: CString, from: nat)
    requires before <= after && from <= |before| && FindIn(before, name, from).Some?
    ensures FindIn(after, name, from) == FindIn(before, name, from)
    decreases |before| - from
  {
    hide SameName;
    if !SameName(before[from].name, name) {
      FindInExtends(before, after, name, from + 1);
    }
  }

  lemma {:induction false} FindAliasExtends(before: seq<Alias>, after: seq<Alias>, name: CString, from: nat)
    requires before <= after && from <= |before| && FindAliasIn(before, name, from).Some?
    ensures FindAliasIn(after, name, from) == FindAliasIn(before, name, from)
    decreases |before| - from
  {
    hide SameName;
    if !SameName(before[from].contract, name) {
      FindAliasExtends(before, after, name, from + 1);
    }
  }

  lemma SameNameComposes(a: CString, b: CString, c: CString)
    requires SameName(a, c) && SameName(b, c)
    ensures SameName(a, b)
  {
  }

  /** A name that stands for a module keeps standing for it. */
  lemma ModuleStays(before: Registry, after: Registry, name: CString)
    requires RegistryOk(before) && RegistryOk(after) && Extends(before, after) && ResolveModule(before, name).Some?
    ensures ResolveModule(after, name) == ResolveModule(before, name)
  {
    hide SameName, FindIn, FindAliasIn, ModuleOk, ValidName;
    if Find(before, name).Some? {
      FindInExtends(before.modules, after.modules, name, 0);
    } else {
      FindAliasExtends(before.aliases, after.aliases, name, 0);
      var alias := FindAlias(before, name).value;
      FindInExtends(before.modules, after.modules, before.aliases[alias].target, 0);
      if Find(after, name).Some? {
        var k := Find(after, name).value;
        SameNameComposes(after.modules[k].name, after.aliases[alias].contract, name);
      }
    }
  }

  /** An alias target is always found: only a name that is neither module nor alias resolves to nothing. */
  lemma ResolvesIffTaken(r: Registry, name: CString)
    requires RegistryOk(r)
    ensures ResolveModule(r, name).Some? <==> Taken(r, name)
  {
    hide FindIn, FindAliasIn, ModuleOk, ValidName;
    if Find(r, name).None? && FindAlias(r, name).Some? {
      var target := r.aliases[FindAlias(r, name).value].target;
      var j :| 0 <= j < |r.modules| && r.modules[j].name == target;
      assert SameName(r.modules[j].name, target);
    }
  }

  lemma HopStays(before: Registry, after: Registry, q: Request, depth: nat)
    requires RegistryOk(before) && RegistryOk(after) && Extends(before, after)
    requires !OneHop(before, q, depth).Fails? || OneHop(before, q, depth).fault != NoSuchModule
    ensures OneHop(after, q, depth) == OneHop(before, q, depth)
  {
    hide RegistryOk, ResolveModule, NativeHop, PeHop;
    UsableIfOk(before);
    UsableIfOk(after);
    if ValidName(q.moduleName) {
      ModuleStays(before, after, q.moduleName);
    }
  }

  lemma UsableIfOk(r: Registry)
    requires RegistryOk(r)
    ensures ModulesUsable(r)
  {
  }

  /** A symbol that resolves keeps its module, address and depth whatever is registered later; so does every failure but a missing module. */
  lemma {:induction false} ResolutionStays(before: Registry, after: Registry, q: Request, depth: nat)
    requires RegistryOk(before) && RegistryOk(after) && Extends(before, after) && depth <= DEPTH_LIMIT + 1
    requires ResolveFrom(before, q, depth) != Failed(NoSuchModule)
    ensures ResolveFrom(after, q, depth) == ResolveFrom(before, q, depth)
    decreases DEPTH_LIMIT + 1 - depth
  {
    hide OneHop, RegistryOk;
    UsableIfOk(before);
    UsableIfOk(after);
    if depth <= DEPTH_LIMIT {
      HopStays(before, after, q, depth);
      var hop := OneHop(before, q, depth);
      if hop.Forwards? {
        ResolutionStays(before, after, hop.to, depth + 1);
      }
    }
  }

  // Any sequence of registrations

  datatype Registration =
    | Load(name: CString, image: P.Image, mappedSize: nat, loadBase: uint64)
    | LoadNative(name: CString, exports: seq<NativeExport>)
    | NameContract(contract: CString, target: CString)

  predicate Registrable(x: Registration) {
    x.Load? ==> |x.image.header.directories| == P.DIRECTORY_COUNT
  }

  function Register(r: Registry, x: Registration): Registry {
    match x
    case Load(name, image, mappedSize, loadBase) => Add(r, name, image, mappedSize, loadBase).1
    case LoadNative(name, exports) => AddNative(r, name, exports).1
    case NameContract(contract, target) => AddAlias(r, contract, target).1
  }

  function RegisterAll(r: Registry, xs: seq<Registration>): Registry
    decreases |xs|
  {
    if xs == [] then r else RegisterAll(Register(r, xs[0]), xs[1..])
  }

  /** Whatever is registered, and whether or not it succeeds, the invariant is kept and everything stays in place. */
  lemma {:induction false} RegisterAllKeeps(r: Registry, xs: seq<Registration>)
    requires RegistryOk(r) && forall k :: 0 <= k < |xs| ==> Registrable(xs[k])
    ensures RegistryOk(RegisterAll(r, xs)) && Extends(r, RegisterAll(r, xs))
    decreases |xs|
  {
    hide RegistryOk, Add, AddNative, AddAlias;
    if xs != [] {
      assert Registrable(xs[0]);
      match xs[0] {
        case Load(name, image, mappedSize, loadBase) => AddKeeps(r, name, image, mappedSize, loadBase);
        case LoadNative(name, exports) => AddNativeKeeps(r, name, exports);
        case NameContract(contract, target) => AddAliasKeeps(r, contract, target);
      }
      RegisterAllKeeps(Register(r, xs[0]), xs[1..]);
    }
  }

  /** An answer, once given, is given after every later sequence of registrations. */
  lemma AnswersStay(r: Registry, xs: seq<Registration>, q: Request)
    requires RegistryOk(r) && forall k :: 0 <= k < |xs| ==> Registrable(xs[k])
    ensures ModulesUsable(r) && RegistryOk(RegisterAll(r, xs)) && ModulesUsable(RegisterAll(r, xs))
    ensures ResolveSymbol(r, q) != Failed(NoSuchModule) ==> ResolveSymbol(RegisterAll(r, xs), q) == ResolveSymbol(r, q)
  {
    hide RegistryOk, OneHop, RegisterAll;
    RegisterAllKeeps(r, xs);
    UsableIfOk(r);
    UsableIfOk(RegisterAll(r, xs));
    if ResolveSymbol(r, q) != Failed(NoSuchModule) {
      ResolutionStays(r, RegisterAll(r, xs), q, 0);
    }
  }
}
