/**
 The domain manager: adding domains, resolving them, and what holds over whole runs
 (core/src/config/domain.rs:73-271).
 */
module DomainManager {
  import opened Domain
  import opened Wrappers

  datatype AddError = UnknownParent(parent: Name) | Violates(items: seq<Item>)

  predicate Accepts(domains: Domains, d: Domain) {
    d.inherits.Some? ==> d.inherits.value in domains && Passes(domains[d.inherits.value], d)
  }

  class DomainManager {
    var domains: Domains
    const defaultDomain: Name

    constructor ()
      ensures domains == map["default" := DEFAULT] && defaultDomain == "default"
      ensures DEFAULT.level == Some("INFO") && DEFAULT.sinks == ["console"]
      ensures DEFAULT.performanceProfile == Some("prod-performance") && DEFAULT.arrayMergePolicy == UniqueAppend
      ensures DEFAULT.inherits == None && forall item :: DEFAULT.Stated(item) == Some(false)
    {
      domains, defaultDomain := map["default" := DEFAULT], "default";
    }

    /** Stores the domain under its name, replacing one of that name, unless a check fails. */
    method AddDomain(d: Domain) returns (r: Result<(), AddError>)
      modifies this`domains
      ensures r.Ok? <==> Accepts(old(domains), d)
      ensures domains == if r.Ok? then old(domains)[d.name := d] else old(domains)
      ensures r.Err? && r.error.UnknownParent? ==> d.inherits == Some(r.error.parent) && r.error.parent !in old(domains)
      ensures r.Err? && r.error.Violates? ==>
                && d.inherits.Some? && d.inherits.value in old(domains)
                && forall item :: item in r.error.items <==> Loosens(old(domains)[d.inherits.value], d, item)
    {
      if d.inherits.Some? {
        if d.inherits.value !in domains {
          return Err(UnknownParent(d.inherits.value));
        }
      }
      if d.inherits.Some? {
        var parent := domains[d.inherits.value];
        var failures := CheckNonDowngradable(parent, d);
        if failures != [] {
          assert failures[0] in failures;
          return Err(Violates(failures));
        }
      }
      domains := domains[d.name := d];
      return Ok(());
    }

    /** Merges a domain with all its ancestors; the call returns only if climbing its inheritance ends. */
    method Resolve(name: Name, ghost n: nat) returns (r: Result<Domain, ResolveError>)
      requires Ends(domains, name, n)
      ensures var resolution := Resolution(domains, name, n);
              r == if name !in domains then Err(DomainNotFound(name))
                   else if resolution.Err? then Err(ParentNotFound(resolution.error))
                   else Ok(resolution.value)
    {
      if name !in domains { return Err(DomainNotFound(name)); }
      var chain := [domains[name]];
      var current := domains[name];
      ghost var before: seq<Domain>, at, left := [], name, n;
      ClimbStart(domains, name, n);
      while current.inherits.Some?
        invariant at in domains && current == domains[at] && chain == before + [current]
        invariant Climbing(domains, name, n, before, at, left)
        decreases left
      {
        var parentName := current.inherits.value;
        ClimbNext(domains, name, n, before, at, left);
        if parentName !in domains {
          MissingFails(domains, name, n);
          return Err(ParentNotFound(parentName));
        }
        before, at, left := before + [current], parentName, left - 1;
        var parent := domains[parentName];
        chain := chain + [parent];
        current := parent;
      }
      MissingFails(domains, name, n);
      FoldedChain(domains, name, n);
      var resolved := MergeChain(chain);
      return Ok(resolved);
    }
  }

  /** Merges from the root (last) to the child (first). */
  method MergeChain(chain: seq<Domain>) returns (resolved: Domain)
    requires chain != []
    ensures resolved == Folded(Reverse(chain))
  {
    var reversed := Reverse(chain);
    resolved := reversed[0];
    for i := 1 to |reversed|
      invariant resolved == Folded(reversed[..i])
    {
      assert reversed[..i + 1][..i] == reversed[..i];
      resolved := MergeDomains(resolved, reversed[i]);
    }
    assert reversed[..|reversed|] == reversed;
  }

  /** The missing domain at which climbing stops. */
  ghost function Missing(domains: Domains, name: Name, n: nat): Option<Name>
    requires Ends(domains, name, n)
    decreases n
  {
    if name !in domains then Some(name)
    else if n == 0 then None
    else Missing(domains, domains[name].inherits.value, n - 1)
  }

  lemma {:induction false} MissingFails(domains: Domains, name: Name, n: nat)
    requires Ends(domains, name, n)
    ensures Missing(domains, name, n).Some? <==> Resolution(domains, name, n).Err?
    ensures Missing(domains, name, n).Some? ==> Resolution(domains, name, n) == Err(Missing(domains, name, n).value)
    decreases n
  {
    if name in domains && n > 0 {
      MissingFails(domains, domains[name].inherits.value, n - 1);
    }
  }

  /** The domains in `before` have been climbed over, and `left` steps remain from `at`. */
  ghost predicate Climbing(domains: Domains, name: Name, n: nat, before: seq<Domain>, at: Name, left: nat) {
    && Ends(domains, name, n) && Ends(domains, at, left)
    && Chain(domains, name, n) == before + Chain(domains, at, left)
    && Missing(domains, name, n) == Missing(domains, at, left)
  }

  lemma ClimbStart(domains: Domains, name: Name, n: nat)
    requires Ends(domains, name, n)
    ensures Climbing(domains, name, n, [], name, n)
  {
    assert [] + Chain(domains, name, n) == Chain(domains, name, n);
  }

  lemma ClimbNext(domains: Domains, name: Name, n: nat, before: seq<Domain>, at: Name, left: nat)
    requires at in domains && domains[at].inherits.Some? && Climbing(domains, name, n, before, at, left)
    ensures left > 0 && Climbing(domains, name, n, before + [domains[at]], domains[at].inherits.value, left - 1)
  {
    var above := Chain(domains, domains[at].inherits.value, left - 1);
    assert before + ([domains[at]] + above) == before + [domains[at]] + above;
  }
}
