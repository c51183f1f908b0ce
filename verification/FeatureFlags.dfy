/** computeEffectiveMemoryFeatureFlags (shared/feature-flags.ts:239-300): a memoising visit of the
    dependency graph of a flag registry, cyclic registries included, computes a least fixed point. */
module FeatureFlags {

  type Flag = string
  datatype Definition = Definition(defaultValue: bool, dependencies: seq<Flag>, prerequisites: seq<string>)
  datatype Registry = Registry(flags: seq<Flag>, definitions: map<Flag, Definition>)

  function FlagSet(reg: Registry): set<Flag> {
    set f | f in reg.flags
  }

  /** The types say it: every flag has a definition, and definitions name flags. */
  ghost predicate Valid(reg: Registry) {
    && (forall f :: f in reg.flags ==> f in reg.definitions)
    && forall f, d :: f in reg.flags && d in reg.definitions[f].dependencies ==> d in reg.flags
  }

  /** values[key] === true */
  predicate On(values: map<string, bool>, key: string) {
    key in values && values[key]
  }

  datatype Setting = Setting(reg: Registry, requested: map<Flag, bool>, available: map<string, bool>)

  /** Asked for, and nothing outside the registry is missing. */
  ghost predicate Ready(s: Setting, f: Flag)
    requires Valid(s.reg) && f in s.reg.flags
  {
    On(s.requested, f) && forall p :: p in s.reg.definitions[f].prerequisites ==> On(s.available, p)
  }

  /** The flags that can be switched on when those in base already are. */
  ghost function Step(s: Setting, base: set<Flag>): set<Flag>
    requires Valid(s.reg)
  {
    set f | f in s.reg.flags && Ready(s, f) && forall d :: d in s.reg.definitions[f].dependencies ==> d in base
  }

  ghost function Stage(s: Setting, n: nat): set<Flag>
    requires Valid(s.reg)
  {
    if n == 0 then {} else Step(s, Stage(s, n - 1))
  }

  /** The effective flags: those some number of steps switches on. */
  ghost predicate Effective(s: Setting, f: Flag)
    requires Valid(s.reg)
  {
    exists n :: f in Stage(s, n)
  }

  /** Flag f is switched on strictly before flag g. */
  ghost predicate Before(s: Setting, f: Flag, g: Flag)
    requires Valid(s.reg)
  {
    exists n :: f in Stage(s, n) && g !in Stage(s, n)
  }

  lemma {:induction false} StageGrows(s: Setting, n: nat, m: nat)
    requires Valid(s.reg) && n <= m
    ensures Stage(s, n) <= Stage(s, m)
    decreases n
  {
    if n > 0 {
      StageGrows(s, n - 1, m - 1);
    }
  }

  /** Dependencies come before what depends on them. */
  lemma {:induction false} DependencyFirst(s: Setting, f: Flag, d: Flag, n: nat)
    requires Valid(s.reg) && f in Stage(s, n) && d in s.reg.definitions[f].dependencies
    ensures Before(s, d, f)
  {
    if f in Stage(s, n - 1) {
      DependencyFirst(s, f, d, n - 1);
    } else {
      assert d in Stage(s, n - 1);
    }
  }

  lemma {:induction false} BeforeTrans(s: Setting, f: Flag, g: Flag, h: Flag)
    requires Valid(s.reg) && Before(s, f, g) && Before(s, g, h)
    ensures Before(s, f, h)
  {
    var n :| f in Stage(s, n) && g !in Stage(s, n);
    var m :| g in Stage(s, m) && h !in Stage(s, m);
    if m < n {
      StageGrows(s, m, n);
    } else {
      StageGrows(s, n, m);
    }
    assert f in Stage(s, m) && h !in Stage(s, m);
  }

  lemma {:induction false} CommonStage(s: Setting, flags: seq<Flag>) returns (n: nat)
    requires Valid(s.reg) && forall f :: f in flags ==> Effective(s, f)
    ensures forall f :: f in flags ==> f in Stage(s, n)
  {
    if flags == [] {
      n := 0;
    } else {
      var m := CommonStage(s, flags[1..]);
      assert flags[0] in flags;
      var k :| flags[0] in Stage(s, k);
      n := if m < k then k else m;
      StageGrows(s, m, n);
      StageGrows(s, k, n);
      assert flags == [flags[0]] + flags[1..];
    }
  }

  // ---------------------------------------------------------------- least fixed point

  /** A flag is in S exactly when it was requested, its prerequisites are there, and its
      dependencies are in S. */
  ghost predicate IsFixedPoint(s: Setting, S: set<Flag>)
    requires Valid(s.reg)
  {
    S == Step(s, S)
  }

  ghost function EffectiveSet(s: Setting): set<Flag>
    requires Valid(s.reg)
  {
    set f | f in s.reg.flags && Effective(s, f)
  }

  lemma {:induction false} StageBelow(s: Setting, n: nat, S: set<Flag>)
    requires Valid(s.reg) && Step(s, S) <= S
    ensures Stage(s, n) <= S
  {
    if n > 0 {
      StageBelow(s, n - 1, S);
    }
  }

  /** The effective flags are a fixed point, and below every set that is closed under the rule. */
  lemma {:induction false} EffectiveIsLeastFixedPoint(s: Setting)
    requires Valid(s.reg)
    ensures IsFixedPoint(s, EffectiveSet(s))
    ensures forall S :: Step(s, S) <= S ==> EffectiveSet(s) <= S
  {
    var E := EffectiveSet(s);
    forall f | f in E ensures f in Step(s, E) {
      var n :| f in Stage(s, n);
      forall d | d in s.reg.definitions[f].dependencies ensures d in E {
        DependencyFirst(s, f, d, n);
      }
    }
    forall f | f in Step(s, E) ensures f in E {
      var n := CommonStage(s, s.reg.definitions[f].dependencies);
      assert f in Stage(s, n + 1);
    }
    forall S | Step(s, S) <= S ensures E <= S {
      forall f | f in E ensures f in S {
        var n :| f in Stage(s, n);
        StageBelow(s, n, S);
      }
    }
  }

  /** More requests and more prerequisites never switch a flag off. */
  lemma {:induction false} Monotone(s: Setting, t: Setting, n: nat)
    requires Valid(s.reg) && s.reg == t.reg
    requires forall f :: On(s.requested, f) ==> On(t.requested, f)
    requires forall p :: On(s.available, p) ==> On(t.available, p)
    ensures Stage(s, n) <= Stage(t, n)
    ensures EffectiveSet(s) <= EffectiveSet(t)
    decreases n
  {
    if n > 0 {
      Monotone(s, t, n - 1);
    }
    var T := EffectiveSet(t);
    EffectiveIsLeastFixedPoint(s);
    EffectiveIsLeastFixedPoint(t);
    assert Step(s, T) <= Step(t, T);
  }

  ghost predicate SameRegistryUpToOrder(a: Registry, b: Registry) {
    && Valid(a) && Valid(b) && FlagSet(a) == FlagSet(b)
    && (forall f, x :: f in a.flags && f in b.flags ==> (x in a.definitions[f].dependencies <==> x in b.definitions[f].dependencies))
    && forall f, x :: f in a.flags && f in b.flags ==> (x in a.definitions[f].prerequisites <==> x in b.definitions[f].prerequisites)
  }

  /** The order in which flags, dependencies and prerequisites are listed does not matter. */
  lemma {:induction false} OrderIrrelevant(s: Setting, t: Setting)
    requires SameRegistryUpToOrder(s.reg, t.reg) && s.requested == t.requested && s.available == t.available
    ensures EffectiveSet(s) == EffectiveSet(t)
  {
    assert EffectiveSet(s) <= EffectiveSet(t) by {
      assert Step(s, EffectiveSet(t)) == Step(t, EffectiveSet(t)) by { SameStep(s, t, EffectiveSet(t)); }
      Least(s, EffectiveSet(t));
      Least(t, EffectiveSet(t));
    }
    assert EffectiveSet(t) <= EffectiveSet(s) by {
      assert Step(s, EffectiveSet(s)) == Step(t, EffectiveSet(s)) by { SameStep(s, t, EffectiveSet(s)); }
      Least(s, EffectiveSet(s));
      Least(t, EffectiveSet(s));
    }
  }

  lemma {:induction false} Least(s: Setting, S: set<Flag>)
    requires Valid(s.reg)
    ensures IsFixedPoint(s, EffectiveSet(s))
    ensures Step(s, S) <= S ==> EffectiveSet(s) <= S
  {
    EffectiveIsLeastFixedPoint(s);
  }

  lemma {:induction false} SameStep(s: Setting, t: Setting, S: set<Flag>)
    requires SameRegistryUpToOrder(s.reg, t.reg) && s.requested == t.requested && s.available == t.available
    ensures Step(s, S) == Step(t, S)
  {
    forall f ensures f in Step(s, S) <==> f in Step(t, S) {
      assert f in s.reg.flags <==> f in FlagSet(s.reg);
      assert f in t.reg.flags <==> f in FlagSet(t.reg);
      if f in s.reg.flags {
        assert Ready(s, f) <==> Ready(t, f);
      }
    }
  }

  ghost predicate IsChain(reg: Registry, chain: seq<Flag>)
    requires Valid(reg)
  {
    && (forall f :: f in chain ==> f in reg.flags)
    && forall i :: 0 <= i < |chain| - 1 ==> chain[i + 1] in reg.definitions[chain[i]].dependencies
  }

  lemma {:induction false} ChainDescends(s: Setting, chain: seq<Flag>, k: nat)
    requires Valid(s.reg) && IsChain(s.reg, chain) && 0 < k < |chain| && Effective(s, chain[0])
    ensures Before(s, chain[k], chain[0])
  {
    assert chain[0 + 1] in s.reg.definitions[chain[0]].dependencies;
    if k == 1 {
      var n :| chain[0] in Stage(s, n);
      DependencyFirst(s, chain[0], chain[1], n);
    } else {
      ChainDescends(s, chain, k - 1);
      var n :| chain[k - 1] in Stage(s, n) && chain[0] !in Stage(s, n);
      assert chain[(k - 1) + 1] in s.reg.definitions[chain[k - 1]].dependencies;
      DependencyFirst(s, chain[k - 1], chain[k], n);
      BeforeTrans(s, chain[k], chain[k - 1], chain[0]);
    }
  }

  /** A flag that depends on itself, however indirectly, is never effective. */
  lemma {:induction false} CyclesStayOff(s: Setting, chain: seq<Flag>)
    requires Valid(s.reg) && IsChain(s.reg, chain) && |chain| > 1 && chain[0] == chain[|chain| - 1]
    ensures !Effective(s, chain[0])
  {
    if Effective(s, chain[0]) {
      ChainDescends(s, chain, |chain| - 1);
    }
  }

  // ---------------------------------------------------------------- the visit

  class Resolver {
    const s: Setting
    var effective: map<Flag, bool>

    constructor (s: Setting)
      ensures this.s == s && effective == map f | f in s.reg.flags :: false
    {
      this.s := s;
      effective := map f | f in s.reg.flags :: false;
    }

    /** Only effective flags are memoised as on. */
    ghost predicate Sound()
      reads this
    {
      && Valid(s.reg) && effective.Keys == FlagSet(s.reg)
      && forall f :: On(effective, f) ==> Effective(s, f)
    }

    /** visit answers exactly whether the flag is effective, although it cuts cycles with the
        stack and memoises only positive answers: whatever waits on the stack comes later than
        the flag, so a cut flag was not effective anyway. */
    method Visit(flag: Flag, stack: seq<Flag>) returns (on: bool)
      requires Sound() && flag in s.reg.flags && forall g :: g in stack ==> g in s.reg.flags
      requires forall g :: g in stack && Effective(s, g) ==> Before(s, flag, g)
      modifies this`effective
      ensures Sound()
      ensures on <==> Effective(s, flag)
      ensures on ==> On(effective, flag)
      ensures forall f :: old(On(effective, f)) ==> On(effective, f)
      decreases FlagSet(s.reg) - (set g | g in stack)
    {
      if effective[flag] {
        return true;
      }
      CutIsRight(s, flag, stack);
      if !On(s.requested, flag) || flag in stack {
        return false;
      }
      var deps := s.reg.definitions[flag].dependencies;
      var enabled, i := true, 0;
      while i < |deps| && enabled
        invariant 0 <= i <= |deps| && Sound()
        invariant enabled ==> forall j :: 0 <= j < i ==> Effective(s, deps[j])
        invariant !enabled ==> exists j :: 0 <= j < |deps| && !Effective(s, deps[j])
        invariant forall f :: old(On(effective, f)) ==> On(effective, f)
        decreases |deps| - i
      {
        StackComesLater(s, flag, deps[i], stack);
        DeeperStack(FlagSet(s.reg), stack, flag);
        enabled := Visit(deps[i], stack + [flag]);
        i := i + 1;
      }
      var available := forall p :: p in s.reg.definitions[flag].prerequisites ==> On(s.available, p);
      on := enabled && available;
      Decide(s, flag, enabled);
      effective := effective[flag := on];
    }
  }

  /** A flag that is not requested, or waits on the stack already, is not effective. */
  lemma {:induction false} CutIsRight(s: Setting, flag: Flag, stack: seq<Flag>)
    requires Valid(s.reg) && flag in s.reg.flags && forall g :: g in stack ==> g in s.reg.flags
    requires forall g :: g in stack && Effective(s, g) ==> Before(s, flag, g)
    ensures !On(s.requested, flag) || flag in stack ==> !Effective(s, flag)
  {
    if n: nat :| flag in Stage(s, n) {
      assert n > 0 && flag in Step(s, Stage(s, n - 1));
    }
  }

  lemma {:induction false} DeeperStack(all: set<Flag>, stack: seq<Flag>, flag: Flag)
    requires flag in all && flag !in stack
    ensures all - (set g | g in stack + [flag]) < all - (set g | g in stack)
  {
    assert flag in all - (set g | g in stack);
    assert flag in stack + [flag];
  }

  lemma {:induction false} StackComesLater(s: Setting, flag: Flag, d: Flag, stack: seq<Flag>)
    requires Valid(s.reg) && flag in s.reg.flags && d in s.reg.definitions[flag].dependencies
    requires forall g :: g in stack && Effective(s, g) ==> Before(s, flag, g)
    ensures forall g :: g in stack + [flag] && Effective(s, g) ==> Before(s, d, g)
  {
    forall g | g in stack + [flag] && Effective(s, g) ensures Before(s, d, g) {
      if g in stack {
        var n :| flag in Stage(s, n) && g !in Stage(s, n);
        DependencyFirst(s, flag, d, n);
        BeforeTrans(s, d, flag, g);
      } else {
        var n :| flag in Stage(s, n);
        DependencyFirst(s, flag, d, n);
      }
    }
  }

  lemma {:induction false} Decide(s: Setting, flag: Flag, enabled: bool)
    requires Valid(s.reg) && flag in s.reg.flags && On(s.requested, flag)
    requires enabled ==> forall d :: d in s.reg.definitions[flag].dependencies ==> Effective(s, d)
    requires !enabled ==> exists d :: d in s.reg.definitions[flag].dependencies && !Effective(s, d)
    ensures Effective(s, flag)
            <==> enabled && forall p :: p in s.reg.definitions[flag].prerequisites ==> On(s.available, p)
  {
    EffectiveIsLeastFixedPoint(s);
    assert flag in EffectiveSet(s) <==> flag in Step(s, EffectiveSet(s));
    forall d | d in s.reg.definitions[flag].dependencies ensures Effective(s, d) <==> d in EffectiveSet(s) {
    }
  }

  /** The result is the least fixed point, in whatever order the registry lists its flags. */
  method ComputeEffective(s: Setting) returns (effective: map<Flag, bool>)
    requires Valid(s.reg)
    ensures effective.Keys == FlagSet(s.reg)
    ensures forall f :: f in s.reg.flags ==> (effective[f] <==> f in EffectiveSet(s))
  {
    var resolver := new Resolver(s);
    for i := 0 to |s.reg.flags|
      invariant resolver.Sound() && resolver.s == s
      invariant forall j :: 0 <= j < i && Effective(s, s.reg.flags[j]) ==> On(resolver.effective, s.reg.flags[j])
    {
      var on := resolver.Visit(s.reg.flags[i], []);
    }
    effective := resolver.effective;
  }

  // ---------------------------------------------------------------- requested values come in layers

  datatype Layers = Layers(runtime: map<Flag, bool>, persisted: map<Flag, bool>, environment: map<Flag, bool>, readFailed: bool)

  function ResolveValue(reg: Registry, flag: Flag, layers: Layers): bool
    requires Valid(reg) && flag in reg.flags
  {
    if layers.readFailed then false
    else if flag in layers.runtime then layers.runtime[flag]
    else if flag in layers.persisted then layers.persisted[flag]
    else if flag in layers.environment then layers.environment[flag]
    else reg.definitions[flag].defaultValue
  }

  function Requested(reg: Registry, layers: Layers): map<Flag, bool>
    requires Valid(reg)
  {
    map f | f in reg.flags :: ResolveValue(reg, f, layers)
  }

  // ---------------------------------------------------------------- which flags are on, from the input alone

  /** The first layer that names the flag gives it this value. */
  ghost predicate FirstNamed(layers: seq<map<Flag, bool>>, flag: Flag, value: bool) {
    exists k :: 0 <= k < |layers| && flag in layers[k] && layers[k][flag] == value && forall j :: 0 <= j < k ==> flag !in layers[j]
  }

  /** The layers, strongest first. */
  ghost function Ordered(reg: Registry, layers: Layers): seq<map<Flag, bool>>
    requires Valid(reg)
  {
    [layers.runtime, layers.persisted, layers.environment, map f | f in reg.flags :: reg.definitions[f].defaultValue]
  }

  lemma {:induction false} FirstLayerDecides(reg: Registry, flag: Flag, layers: Layers, value: bool)
    requires Valid(reg) && flag in reg.flags
    ensures layers.readFailed ==> !ResolveValue(reg, flag, layers)
    ensures !layers.readFailed ==> (ResolveValue(reg, flag, layers) == value <==> FirstNamed(Ordered(reg, layers), flag, value))
  {
    var all := Ordered(reg, layers);
    assert all[0] == layers.runtime && all[1] == layers.persisted && all[2] == layers.environment;
    assert flag in all[3] && all[3][flag] == reg.definitions[flag].defaultValue;
    var k := if flag in all[0] then 0 else if flag in all[1] then 1 else if flag in all[2] then 2 else 3;
    assert flag in all[k] && forall j :: 0 <= j < k ==> flag !in all[j];
    assert !layers.readFailed ==> all[k][flag] == ResolveValue(reg, flag, layers);
  }

  ghost predicate NoRepeat(chain: seq<Flag>) {
    forall i, j :: 0 <= i < j < |chain| ==> chain[i] != chain[j]
  }

  /** A chain of dependencies that starts with this flag. */
  ghost predicate ChainFrom(reg: Registry, flag: Flag, chain: seq<Flag>)
    requires Valid(reg)
  {
    IsChain(reg, chain) && chain != [] && chain[0] == flag
  }

  /** However far one follows its dependencies, there is no cycle and every flag is ready. */
  ghost predicate AllReady(s: Setting, flag: Flag)
    requires Valid(s.reg)
  {
    forall chain :: ChainFrom(s.reg, flag, chain) ==> NoRepeat(chain) && Ready(s, chain[|chain| - 1])
  }

  lemma {:induction false} ChainIsEffective(s: Setting, chain: seq<Flag>, k: nat)
    requires Valid(s.reg) && IsChain(s.reg, chain) && k < |chain| && Effective(s, chain[0])
    ensures Effective(s, chain[k])
  {
    if k > 0 {
      ChainDescends(s, chain, k);
    }
  }

  lemma {:induction false} EffectiveIsReady(s: Setting, flag: Flag)
    requires Valid(s.reg) && Effective(s, flag)
    ensures flag in s.reg.flags && Ready(s, flag)
  {
    var n: nat :| flag in Stage(s, n);
    assert n > 0 && flag in Step(s, Stage(s, n - 1));
  }

  lemma {:induction false} EffectiveHasNoCycle(s: Setting, chain: seq<Flag>, i: nat, j: nat)
    requires Valid(s.reg) && IsChain(s.reg, chain) && i < j < |chain| && Effective(s, chain[0])
    ensures chain[i] != chain[j]
  {
    var cycle := chain[i..j + 1];
    assert IsChain(s.reg, cycle) && cycle[0] == chain[i] && cycle[|cycle| - 1] == chain[j];
    ChainIsEffective(s, chain, i);
    if chain[i] == chain[j] {
      CyclesStayOff(s, cycle);
    }
  }

  /** Where the path leads without a cycle and through ready flags only, its end is effective. */
  lemma {:induction false} PathIsEffective(s: Setting, flag: Flag, path: seq<Flag>)
    requires Valid(s.reg) && AllReady(s, flag) && ChainFrom(s.reg, flag, path)
    ensures Effective(s, path[|path| - 1])
    decreases FlagSet(s.reg) - (set g | g in path)
  {
    var last := path[|path| - 1];
    assert last in path;
    var deps := s.reg.definitions[last].dependencies;
    forall d | d in deps ensures Effective(s, d) {
      Extends(s.reg, flag, path, d);
      assert NoRepeat(path + [d]);
      NewAtEnd(path, d);
      DeeperStack(FlagSet(s.reg), path, d);
      PathIsEffective(s, flag, path + [d]);
    }
    AllDependenciesOn(s, last);
  }

  lemma {:induction false} Extends(reg: Registry, flag: Flag, path: seq<Flag>, d: Flag)
    requires Valid(reg) && ChainFrom(reg, flag, path) && d in reg.definitions[path[|path| - 1]].dependencies
    ensures ChainFrom(reg, flag, path + [d])
  {
    var longer := path + [d];
    assert path[|path| - 1] in path;
    forall i | 0 <= i < |longer| - 1 ensures longer[i + 1] in reg.definitions[longer[i]].dependencies {
      assert i < |path| - 1 ==> longer[i + 1] == path[i + 1];
    }
  }

  lemma {:induction false} NewAtEnd(path: seq<Flag>, d: Flag)
    requires NoRepeat(path + [d])
    ensures d !in path
  {
    var longer := path + [d];
    forall i | 0 <= i < |path| ensures path[i] != d {
      assert longer[i] == path[i] && longer[|path|] == d;
    }
  }

  lemma {:induction false} AllDependenciesOn(s: Setting, flag: Flag)
    requires Valid(s.reg) && flag in s.reg.flags && Ready(s, flag)
    requires forall d :: d in s.reg.definitions[flag].dependencies ==> Effective(s, d)
    ensures Effective(s, flag)
  {
    var n := CommonStage(s, s.reg.definitions[flag].dependencies);
    assert flag in Stage(s, n + 1);
  }

  /** A flag is effective exactly when everything it depends on, however indirectly, is asked for and has
      its prerequisites, and none of it depends on itself. */
  lemma {:induction false} EffectiveIff(s: Setting, flag: Flag)
    requires Valid(s.reg) && flag in s.reg.flags
    ensures Effective(s, flag) <==> AllReady(s, flag)
  {
    if Effective(s, flag) {
      forall chain | ChainFrom(s.reg, flag, chain) ensures NoRepeat(chain) && Ready(s, chain[|chain| - 1]) {
        forall i, j | 0 <= i < j < |chain| ensures chain[i] != chain[j] {
          EffectiveHasNoCycle(s, chain, i, j);
        }
        ChainIsEffective(s, chain, |chain| - 1);
        EffectiveIsReady(s, chain[|chain| - 1]);
      }
    }
    if AllReady(s, flag) {
      PathIsEffective(s, flag, [flag]);
    }
  }

  /** Everything the flag depends on is switched on by the first layer that names it, has its
      prerequisites, and does not depend on itself. */
  ghost predicate SwitchedOn(reg: Registry, layers: Layers, available: map<string, bool>, flag: Flag)
    requires Valid(reg)
  {
    forall chain :: ChainFrom(reg, flag, chain) ==>
                      && NoRepeat(chain)
                      && FirstNamed(Ordered(reg, layers), chain[|chain| - 1], true)
                      && forall p :: p in reg.definitions[chain[|chain| - 1]].prerequisites ==> On(available, p)
  }

  lemma {:induction false} SwitchedOnIff(reg: Registry, layers: Layers, available: map<string, bool>, flag: Flag)
    requires Valid(reg) && flag in reg.flags && !layers.readFailed
    ensures flag in EffectiveSet(Setting(reg, Requested(reg, layers), available)) <==> SwitchedOn(reg, layers, available, flag)
  {
    var s := Setting(reg, Requested(reg, layers), available);
    EffectiveIff(s, flag);
    forall chain | ChainFrom(reg, flag, chain)
      ensures Ready(s, chain[|chain| - 1])
              <==> FirstNamed(Ordered(reg, layers), chain[|chain| - 1], true)
                   && forall p :: p in reg.definitions[chain[|chain| - 1]].prerequisites ==> On(available, p)
    {
      var last := chain[|chain| - 1];
      assert last in chain;
      FirstLayerDecides(reg, last, layers, true);
    }
  }

  /** A flag that the runtime layer switches off, and every flag that depends on it, is off. */
  lemma {:induction false} RuntimeSwitchesOff(reg: Registry, layers: Layers, available: map<string, bool>, chain: seq<Flag>)
    requires Valid(reg) && IsChain(reg, chain) && chain != []
    requires var off := chain[|chain| - 1]; off in layers.runtime && !layers.runtime[off]
    ensures !SwitchedOn(reg, layers, available, chain[0])
  {
    var last, all := chain[|chain| - 1], Ordered(reg, layers);
    assert all[0] == layers.runtime;
    assert ChainFrom(reg, chain[0], chain);
    assert !FirstNamed(all, last, true);
  }

  /** A failed read switches everything off; otherwise a flag is on exactly when the layers switch on all
      that it needs. */
  method ResolveEffective(reg: Registry, layers: Layers, available: map<string, bool>) returns (r: map<Flag, bool>)
    requires Valid(reg)
    ensures r.Keys == FlagSet(reg)
    ensures forall f :: f in reg.flags ==> (r[f] <==> !layers.readFailed && SwitchedOn(reg, layers, available, f))
    ensures forall f :: f in reg.flags && f in layers.runtime && !layers.runtime[f] ==> !r[f]
  {
    if layers.readFailed {
      return map f | f in reg.flags :: false;
    }
    r := ComputeEffective(Setting(reg, Requested(reg, layers), available));
    forall f | f in reg.flags ensures r[f] <==> SwitchedOn(reg, layers, available, f) {
      SwitchedOnIff(reg, layers, available, f);
    }
    forall f | f in reg.flags && f in layers.runtime && !layers.runtime[f] ensures !r[f] {
      RuntimeSwitchesOff(reg, layers, available, [f]);
    }
  }
}
