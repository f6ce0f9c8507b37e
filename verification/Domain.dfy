/** Logger domains and their inheritance (core/src/config/domain.rs). */
module Domain {
  import opened Wrappers

  type Name = string

  datatype ArrayMergePolicy = Replace | Append | UniqueAppend

  /** The items a child may tighten (false to true) but not loosen, in the order they are checked. */
  datatype Item = EnableSignature | EscapeHtml | WormEnabled | FsyncOnWrite | RequireTls | SignRing2

  const NON_DOWNGRADABLE_ITEMS: seq<Item> :=
    [EnableSignature, EscapeHtml, WormEnabled, FsyncOnWrite, RequireTls, SignRing2]

  datatype Domain = Domain(
    name: Name,
    inherits: Option<Name>,
    level: Option<string>,
    sinks: seq<string>,
    enableSignature: Option<bool>,
    escapeHtml: Option<bool>,
    wormEnabled: Option<bool>,
    fsyncOnWrite: Option<bool>,
    requireTls: Option<bool>,
    signRing2: Option<bool>,
    performanceProfile: Option<string>,
    arrayMergePolicy: ArrayMergePolicy)
  {
    function Stated(item: Item): Option<bool> {
      match item
      case EnableSignature => enableSignature
      case EscapeHtml => escapeHtml
      case WormEnabled => wormEnabled
      case FsyncOnWrite => fsyncOnWrite
      case RequireTls => requireTls
      case SignRing2 => signRing2
    }
  }

  type Domains = map<Name, Domain>

  const DEFAULT: Domain := Domain("default", None, Some("INFO"), ["console"],
    Some(false), Some(false), Some(false), Some(false), Some(false), Some(false), Some("prod-performance"),
    UniqueAppend)

  // ---------------------------------------------------------------------------------------------
  // Merging
  // ---------------------------------------------------------------------------------------------

  function Or<T>(child: Option<T>, parent: Option<T>): Option<T> {
    if child.Some? then child else parent
  }

  /** The parent's sinks, then those of the child that are not there yet. */
  function Unique(parent: seq<string>, child: seq<string>): seq<string> {
    if child == [] then parent
    else
      var last := |child| - 1;
      var before := Unique(parent, child[..last]);
      if child[last] in before then before else before + [child[last]]
  }

  function MergedSinks(parent: seq<string>, child: Domain): seq<string> {
    match child.arrayMergePolicy
    case Replace => child.sinks
    case Append => parent + child.sinks
    case UniqueAppend => Unique(parent, child.sinks)
  }

  /** The effective domain of a child; its `inherits` and merge policy remain those of the root. */
  function Merge(parent: Domain, child: Domain): Domain {
    Domain(child.name, parent.inherits, Or(child.level, parent.level), MergedSinks(parent.sinks, child),
      Or(child.enableSignature, parent.enableSignature), Or(child.escapeHtml, parent.escapeHtml),
      Or(child.wormEnabled, parent.wormEnabled), Or(child.fsyncOnWrite, parent.fsyncOnWrite),
      Or(child.requireTls, parent.requireTls), Or(child.signRing2, parent.signRing2),
      Or(child.performanceProfile, parent.performanceProfile), parent.arrayMergePolicy)
  }

  method MergeDomains(parent: Domain, child: Domain) returns (merged: Domain)
    ensures merged == Merge(parent, child)
  {
    merged := parent.(name := child.name);
    if child.level.Some? { merged := merged.(level := child.level); }
    if child.enableSignature.Some? { merged := merged.(enableSignature := child.enableSignature); }
    if child.performanceProfile.Some? { merged := merged.(performanceProfile := child.performanceProfile); }
    if child.escapeHtml.Some? { merged := merged.(escapeHtml := child.escapeHtml); }
    if child.wormEnabled.Some? { merged := merged.(wormEnabled := child.wormEnabled); }
    assert merged == parent.(
      name := child.name, level := Or(child.level, parent.level),
      enableSignature := Or(child.enableSignature, parent.enableSignature),
      performanceProfile := Or(child.performanceProfile, parent.performanceProfile),
      escapeHtml := Or(child.escapeHtml, parent.escapeHtml), wormEnabled := Or(child.wormEnabled, parent.wormEnabled));
    if child.signRing2.Some? { merged := merged.(signRing2 := child.signRing2); }
    if child.fsyncOnWrite.Some? { merged := merged.(fsyncOnWrite := child.fsyncOnWrite); }
    if child.requireTls.Some? { merged := merged.(requireTls := child.requireTls); }
    var sinks := MergeSinks(parent.sinks, child);
    merged := merged.(sinks := sinks);
  }

  method MergeSinks(parent: seq<string>, child: Domain) returns (sinks: seq<string>)
    ensures sinks == MergedSinks(parent, child)
  {
    match child.arrayMergePolicy {
      case Replace =>
        sinks := child.sinks;
      case Append =>
        sinks := parent;
        sinks := sinks + child.sinks;
      case UniqueAppend =>
        sinks := parent;
        for i := 0 to |child.sinks|
          invariant sinks == Unique(parent, child.sinks[..i])
        {
          assert child.sinks[..i + 1][..i] == child.sinks[..i];
          if child.sinks[i] !in sinks {
            sinks := sinks + [child.sinks[i]];
          }
        }
        assert child.sinks[..|child.sinks|] == child.sinks;
    }
  }

  ghost predicate NoDuplicates(s: seq<string>) {
    forall i, j :: 0 <= i < j < |s| ==> s[i] != s[j]
  }

  /** Unique merging keeps the parent's sinks in front, has no duplicates of its own making and loses nothing. */
  lemma {:induction false} UniqueMerges(parent: seq<string>, child: seq<string>)
    ensures parent <= Unique(parent, child)
    ensures forall s :: s in Unique(parent, child) <==> s in parent || s in child
    ensures NoDuplicates(parent) ==> NoDuplicates(Unique(parent, child))
  {
    if child != [] {
      var last := |child| - 1;
      UniqueMerges(parent, child[..last]);
      assert child == child[..last] + [child[last]];
    }
  }

  // ---------------------------------------------------------------------------------------------
  // Checking
  // ---------------------------------------------------------------------------------------------

  predicate Loosens(parent: Domain, child: Domain, item: Item) {
    parent.Stated(item) == Some(true) && child.Stated(item) == Some(false)
  }

  predicate Passes(parent: Domain, child: Domain) {
    forall item :: !Loosens(parent, child, item)
  }

  function Loosened(parent: Domain, child: Domain, items: seq<Item>): seq<Item> {
    if items == [] then []
    else
      var last := |items| - 1;
      Loosened(parent, child, items[..last]) + (if Loosens(parent, child, items[last]) then [items[last]] else [])
  }

  lemma {:induction false} LoosenedExactly(parent: Domain, child: Domain, items: seq<Item>)
    ensures forall item :: item in Loosened(parent, child, items) <==> item in items && Loosens(parent, child, item)
  {
    if items != [] {
      var last := |items| - 1;
      LoosenedExactly(parent, child, items[..last]);
      assert items == items[..last] + [items[last]];
    }
  }

  /** The failed checks, one for each item the child would loosen. */
  method CheckNonDowngradable(parent: Domain, child: Domain) returns (failures: seq<Item>)
    ensures failures == Loosened(parent, child, NON_DOWNGRADABLE_ITEMS)
    ensures forall item :: item in failures <==> Loosens(parent, child, item)
    ensures var bad := (p: Option<bool>, c: Option<bool>) => p == Some(true) && c == Some(false);
            && (EnableSignature in failures <==> bad(parent.enableSignature, child.enableSignature))
            && (EscapeHtml in failures <==> bad(parent.escapeHtml, child.escapeHtml))
            && (WormEnabled in failures <==> bad(parent.wormEnabled, child.wormEnabled))
            && (FsyncOnWrite in failures <==> bad(parent.fsyncOnWrite, child.fsyncOnWrite))
            && (RequireTls in failures <==> bad(parent.requireTls, child.requireTls))
            && (SignRing2 in failures <==> bad(parent.signRing2, child.signRing2))
  {
    failures := [];
    var items := NON_DOWNGRADABLE_ITEMS;
    for i := 0 to |items|
      invariant failures == Loosened(parent, child, items[..i])
    {
      assert items[..i + 1][..i] == items[..i];
      var p, c := parent.Stated(items[i]), child.Stated(items[i]);
      if p.Some? && c.Some? {
        if p.value && !c.value {
          failures := failures + [items[i]];
        }
      }
    }
    assert items[..|items|] == items;
    LoosenedExactly(parent, child, items);
    forall item: Item ensures item in items {
      AllItemsListed(item);
    }
  }

  lemma AllItemsListed(item: Item)
    ensures item in NON_DOWNGRADABLE_ITEMS
  {
    var items := NON_DOWNGRADABLE_ITEMS;
    assert items[0] == EnableSignature && items[1] == EscapeHtml && items[2] == WormEnabled;
    assert items[3] == FsyncOnWrite && items[4] == RequireTls && items[5] == SignRing2;
  }

  // ---------------------------------------------------------------------------------------------
  // Chains
  // ---------------------------------------------------------------------------------------------

  /** Climbing the inheritance from `name` stops after `n` steps, at a root or at a missing domain. */
  ghost predicate Ends(domains: Domains, name: Name, n: nat)
    decreases n
  {
    if name !in domains || domains[name].inherits.None? then n == 0
    else n > 0 && Ends(domains, domains[name].inherits.value, n - 1)
  }

  datatype ResolveError = DomainNotFound(name: Name) | ParentNotFound(name: Name)

  /** The merge of a domain with all its ancestors, nearest last. */
  ghost function Resolution(domains: Domains, name: Name, n: nat): Result<Domain, Name>
    requires Ends(domains, name, n)
    decreases n
  {
    if name !in domains then Err(name)
    else if n == 0 then Ok(domains[name])
    else
      var parent := Resolution(domains, domains[name].inherits.value, n - 1);
      if parent.Err? then parent else Ok(Merge(parent.value, domains[name]))
  }

  /** The domain and its ancestors, nearest first. */
  ghost function Chain(domains: Domains, name: Name, n: nat): seq<Domain>
    requires Ends(domains, name, n)
    decreases n
  {
    if name !in domains then []
    else if n == 0 then [domains[name]]
    else [domains[name]] + Chain(domains, domains[name].inherits.value, n - 1)
  }

  /** Merging a reversed chain from its front. */
  function Folded(reversed: seq<Domain>): Domain
    requires reversed != []
  {
    if |reversed| == 1 then reversed[0]
    else Merge(Folded(reversed[..|reversed| - 1]), reversed[|reversed| - 1])
  }

  function Reverse(s: seq<Domain>): (r: seq<Domain>)
    ensures |r| == |s|
  {
    if s == [] then [] else Reverse(s[1..]) + [s[0]]
  }

  lemma {:induction false} FoldedChain(domains: Domains, name: Name, n: nat)
    requires Ends(domains, name, n) && Resolution(domains, name, n).Ok?
    ensures Chain(domains, name, n) != []
    ensures Resolution(domains, name, n) == Ok(Folded(Reverse(Chain(domains, name, n))))
    decreases n
  {
    var chain := Chain(domains, name, n);
    if n == 0 {
      assert Reverse(chain) == Reverse(chain[1..]) + [chain[0]];
    } else {
      FoldedChain(domains, domains[name].inherits.value, n - 1);
      assert chain[1..] == Chain(domains, domains[name].inherits.value, n - 1);
      assert Reverse(chain)[..|Reverse(chain)| - 1] == Reverse(chain[1..]);
    }
  }
}
