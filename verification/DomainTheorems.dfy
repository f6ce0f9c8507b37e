/** What holds of resolution over any run of `add_domain` (core/src/config/domain.rs:116-271). */
module DomainTheorems {
  import opened Domain
  import opened DomainManager
  import opened Wrappers

  // ---------------------------------------------------------------------------------------------
  // Acyclicity
  // ---------------------------------------------------------------------------------------------

  /** Climbing the inheritance from `name` reaches a root after `n` steps. */
  ghost predicate Rooted(domains: Domains, name: Name, n: nat)
    decreases n
  {
    && name in domains
    && if domains[name].inherits.None? then n == 0 else n > 0 && Rooted(domains, domains[name].inherits.value, n - 1)
  }

  /** Every domain has a root: no parent is missing and no inheritance is cyclic. */
  ghost predicate Sound(domains: Domains) {
    forall name :: name in domains ==> exists n: nat :: Rooted(domains, name, n)
  }

  /** On a rooted domain `resolve` succeeds, and resolving a child is merging it into its resolved parent. */
  lemma {:induction false} ResolveIsMergeOfResolvedParent(domains: Domains, name: Name, n: nat)
    requires Rooted(domains, name, n)
    ensures Ends(domains, name, n) && Resolution(domains, name, n).Ok?
    ensures n == 0 ==> Resolution(domains, name, n).value == domains[name]
    ensures n > 0 ==>
              var parent := domains[name].inherits.value;
              && Ends(domains, parent, n - 1) && Resolution(domains, parent, n - 1).Ok?
              && Resolution(domains, name, n).value == Merge(Resolution(domains, parent, n - 1).value, domains[name])
    decreases n
  {
    if n > 0 { ResolveIsMergeOfResolvedParent(domains, domains[name].inherits.value, n - 1); }
  }

  lemma {:induction false} EndsOnce(domains: Domains, name: Name, n: nat, m: nat)
    requires Ends(domains, name, n) && Ends(domains, name, m)
    ensures n == m
    decreases n
  {
    if n > 0 { EndsOnce(domains, domains[name].inherits.value, n - 1, m - 1); }
  }

  /** The name `k` steps up. */
  function Climb(domains: Domains, name: Name, k: nat): Option<Name>
    decreases k
  {
    if k == 0 then Some(name)
    else if name !in domains || domains[name].inherits.None? then None
    else Climb(domains, domains[name].inherits.value, k - 1)
  }

  ghost predicate OnChain(domains: Domains, name: Name, above: Name) {
    exists k: nat :: Climb(domains, name, k) == Some(above)
  }

  lemma {:induction false} EndsClimb(domains: Domains, name: Name, n: nat, k: nat, above: Name)
    requires Ends(domains, name, n) && Climb(domains, name, k) == Some(above)
    ensures k <= n && Ends(domains, above, n - k)
    decreases k
  {
    if k > 0 { EndsClimb(domains, domains[name].inherits.value, n - 1, k - 1, above); }
  }

  /** Climbing from `name` never ends: `resolve` of it does not return. */
  ghost predicate NeverEnds(domains: Domains, name: Name) {
    forall n: nat :: !Ends(domains, name, n)
  }

  lemma CycleNeverEnds(domains: Domains, name: Name, k: nat)
    requires k > 0 && Climb(domains, name, k) == Some(name)
    ensures NeverEnds(domains, name)
  {
    forall n: nat ensures !Ends(domains, name, n) {
      if Ends(domains, name, n) {
        EndsClimb(domains, name, n, k, name);
        EndsOnce(domains, name, n, n - k);
      }
    }
  }

  lemma {:induction false} RootedAvoiding(domains: Domains, d: Domain, name: Name, n: nat)
    requires Rooted(domains, name, n) && !OnChain(domains, name, d.name)
    ensures Rooted(domains[d.name := d], name, n)
    decreases n
  {
    assert Climb(domains, name, 0) == Some(name);
    if n > 0 {
      var parent := domains[name].inherits.value;
      forall k: nat ensures Climb(domains, parent, k) != Some(d.name) {
        assert Climb(domains, name, k + 1) == Climb(domains, parent, k);
      }
      RootedAvoiding(domains, d, parent, n - 1);
    }
  }

  /** A chain that meets the replaced domain goes on from there. */
  lemma {:induction false} RootedThrough(domains: Domains, d: Domain, name: Name, n: nat, m: nat) returns (k: nat)
    requires Rooted(domains, name, n) && Rooted(domains[d.name := d], d.name, m)
    ensures Rooted(domains[d.name := d], name, k)
    decreases n
  {
    if name == d.name {
      k := m;
    } else if n == 0 {
      k := 0;
    } else {
      k := RootedThrough(domains, d, domains[name].inherits.value, n - 1, m);
      k := k + 1;
    }
  }

  lemma {:induction false} StillOnChain(domains: Domains, d: Domain, name: Name, k: nat) returns (j: nat)
    requires Climb(domains, name, k) == Some(d.name)
    ensures Climb(domains[d.name := d], name, j) == Some(d.name)
    decreases k
  {
    if name == d.name {
      j := 0;
    } else {
      j := StillOnChain(domains, d, domains[name].inherits.value, k - 1);
      j := j + 1;
    }
  }

  /** An accepted domain keeps the inheritance acyclic exactly when its name is not on the chain of its parent. */
  lemma AddKeepsSoundExactlyWhen(domains: Domains, d: Domain)
    requires Sound(domains) && Accepts(domains, d)
    ensures Sound(domains[d.name := d]) <==> d.inherits.None? || !OnChain(domains, d.inherits.value, d.name)
    ensures !Sound(domains[d.name := d]) ==> NeverEnds(domains[d.name := d], d.name)
  {
    var after := domains[d.name := d];
    if d.inherits.Some? && OnChain(domains, d.inherits.value, d.name) {
      var k: nat :| Climb(domains, d.inherits.value, k) == Some(d.name);
      var j := StillOnChain(domains, d, d.inherits.value, k);
      assert Climb(after, d.name, j + 1) == Climb(after, d.inherits.value, j);
      CycleNeverEnds(after, d.name, j + 1);
      forall n: nat ensures !Rooted(after, d.name, n) {
        if Rooted(after, d.name, n) { ResolveIsMergeOfResolvedParent(after, d.name, n); }
      }
      assert d.name in after;
    } else {
      AcyclicStaysSound(domains, d);
    }
  }

  lemma AcyclicStaysSound(domains: Domains, d: Domain)
    requires Sound(domains) && Accepts(domains, d)
    requires d.inherits.None? || !OnChain(domains, d.inherits.value, d.name)
    ensures Sound(domains[d.name := d])
  {
    var after := domains[d.name := d];
    var m: nat := 0;
    if d.inherits.Some? {
      var n: nat :| Rooted(domains, d.inherits.value, n);
      RootedAvoiding(domains, d, d.inherits.value, n);
      m := n + 1;
    }
    assert Rooted(after, d.name, m);
    forall name | name in after ensures exists n: nat :: Rooted(after, name, n) {
      if name != d.name {
        var n: nat :| Rooted(domains, name, n);
        var k := RootedThrough(domains, d, name, n, m);
        assert Rooted(after, name, k);
      }
    }
  }

  lemma {:induction false} ChainStaysInside(domains: Domains, name: Name, n: nat, k: nat)
    requires Rooted(domains, name, n) && Climb(domains, name, k).Some?
    ensures Climb(domains, name, k).value in domains
    decreases k
  {
    if k > 0 { ChainStaysInside(domains, domains[name].inherits.value, n - 1, k - 1); }
  }

  lemma FreshNameStaysSound(domains: Domains, d: Domain)
    requires Sound(domains) && Accepts(domains, d) && d.name !in domains
    ensures Sound(domains[d.name := d])
  {
    if d.inherits.Some? {
      var n: nat :| Rooted(domains, d.inherits.value, n);
      forall k: nat ensures Climb(domains, d.inherits.value, k) != Some(d.name) {
        if Climb(domains, d.inherits.value, k).Some? { ChainStaysInside(domains, d.inherits.value, n, k); }
      }
    }
    AcyclicStaysSound(domains, d);
  }

  // ---------------------------------------------------------------------------------------------
  // Runs
  // ---------------------------------------------------------------------------------------------

  /** No domain loosens an item its parent states. */
  ghost predicate Tight(domains: Domains) {
    forall name :: name in domains && domains[name].inherits.Some? && domains[name].inherits.value in domains ==>
      Passes(domains[domains[name].inherits.value], domains[name])
  }

  lemma FreshNameStaysTight(domains: Domains, d: Domain)
    requires Sound(domains) && Tight(domains) && Accepts(domains, d) && d.name !in domains
    ensures Tight(domains[d.name := d])
  {
    forall name | name in domains && domains[name].inherits.Some? ensures domains[name].inherits.value in domains {
      var n: nat :| Rooted(domains, name, n);
      assert Rooted(domains, domains[name].inherits.value, n - 1);
    }
  }

  /** Replacing a domain keeps the manager tight exactly when no child loosens what the new domain states. */
  lemma ReplaceKeepsTightExactlyWhen(domains: Domains, d: Domain)
    requires Tight(domains) && Accepts(domains, d)
    ensures Tight(domains[d.name := d])
       <==> forall name :: name in domains && name != d.name && domains[name].inherits == Some(d.name) ==>
              Passes(d, domains[name])
  {
    var after := domains[d.name := d];
    if Tight(after) {
      forall name | name in domains && name != d.name && domains[name].inherits == Some(d.name)
        ensures Passes(d, domains[name])
      {
        assert name in after && after[name] == domains[name];
      }
    }
  }

  /** The domains after these additions, accepted or not. */
  function Built(adds: seq<Domain>): Domains {
    if adds == [] then map["default" := DEFAULT]
    else
      var before := Built(adds[..|adds| - 1]);
      var d := adds[|adds| - 1];
      if Accepts(before, d) then before[d.name := d] else before
  }

  ghost predicate EachNameOnce(adds: seq<Domain>) {
    && (forall i :: 0 <= i < |adds| ==> adds[i].name != "default")
    && (forall i, j :: 0 <= i < j < |adds| ==> adds[i].name != adds[j].name)
  }

  lemma {:induction false} BuiltNames(adds: seq<Domain>)
    ensures forall name :: name in Built(adds) ==>
              name == "default" || exists i :: 0 <= i < |adds| && adds[i].name == name
    ensures forall name :: name in Built(adds) ==> Built(adds)[name].name == name
    ensures "default" in Built(adds)
  {
    if adds != [] {
      var last := |adds| - 1;
      BuiltNames(adds[..last]);
      forall name | name in Built(adds) && name != "default"
        ensures exists i :: 0 <= i < |adds| && adds[i].name == name
      {
        if name in Built(adds[..last]) {
          var i :| 0 <= i < last && adds[..last][i].name == name;
          assert adds[i].name == name;
        } else {
          assert adds[last].name == name;
        }
      }
    }
  }

  /** A manager built from `new` by adding each name once is acyclic, resolves every domain, and is tight. */
  lemma {:induction false} BuiltIsSound(adds: seq<Domain>)
    requires EachNameOnce(adds)
    ensures Sound(Built(adds)) && Tight(Built(adds))
  {
    if adds == [] {
      assert Rooted(Built(adds), "default", 0);
    } else {
      var last := |adds| - 1;
      var before := Built(adds[..last]);
      BuiltIsSound(adds[..last]);
      BuiltNames(adds[..last]);
      assert adds[last].name !in before;
      if Accepts(before, adds[last]) {
        FreshNameStaysSound(before, adds[last]);
        FreshNameStaysTight(before, adds[last]);
      }
    }
  }

  // ---------------------------------------------------------------------------------------------
  // Non-downgradable items
  // ---------------------------------------------------------------------------------------------

  /** What the nearest domain that states the item says. */
  ghost function Nearest(domains: Domains, name: Name, n: nat, item: Item): Option<bool>
    requires Rooted(domains, name, n)
    decreases n
  {
    if domains[name].Stated(item).Some? || n == 0 then domains[name].Stated(item)
    else Nearest(domains, domains[name].inherits.value, n - 1, item)
  }

  lemma MergedItem(parent: Domain, child: Domain, item: Item)
    ensures Merge(parent, child).Stated(item) == Or(child.Stated(item), parent.Stated(item))
  {
  }

  /** An item resolves to what the nearest domain stating it says. */
  lemma {:induction false} NearestWins(domains: Domains, name: Name, n: nat, item: Item)
    requires Rooted(domains, name, n)
    ensures Ends(domains, name, n) && Resolution(domains, name, n).Ok?
    ensures Resolution(domains, name, n).value.Stated(item) == Nearest(domains, name, n, item)
    decreases n
  {
    ResolveIsMergeOfResolvedParent(domains, name, n);
    if n > 0 {
      var parent := domains[name].inherits.value;
      NearestWins(domains, parent, n - 1, item);
      MergedItem(Resolution(domains, parent, n - 1).value, domains[name], item);
    }
  }

  ghost predicate AnyTrue(domains: Domains, name: Name, n: nat, item: Item)
    requires Rooted(domains, name, n)
    decreases n
  {
    domains[name].Stated(item) == Some(true) || (n > 0 && AnyTrue(domains, domains[name].inherits.value, n - 1, item))
  }

  ghost predicate AllState(domains: Domains, name: Name, n: nat, item: Item)
    requires Rooted(domains, name, n)
    decreases n
  {
    domains[name].Stated(item).Some? && (n > 0 ==> AllState(domains, domains[name].inherits.value, n - 1, item))
  }

  /** The domain states false under a parent that states nothing but has true from further up. */
  ghost predicate Gap(domains: Domains, name: Name, n: nat, item: Item)
    requires Rooted(domains, name, n)
  {
    && n > 0
    && domains[name].Stated(item) == Some(false)
    && var parent := domains[name].inherits.value;
       && Rooted(domains, parent, n - 1) && domains[parent].Stated(item).None?
       && Nearest(domains, parent, n - 1, item) == Some(true)
  }

  ghost predicate AnyGap(domains: Domains, name: Name, n: nat, item: Item)
    requires Rooted(domains, name, n)
    decreases n
  {
    Gap(domains, name, n, item) || (n > 0 && AnyGap(domains, domains[name].inherits.value, n - 1, item))
  }

  /** On the whole chain, an item that is true in some domain resolves to true in all domains below. */
  ghost predicate Enforced(domains: Domains, name: Name, n: nat, item: Item)
    requires Rooted(domains, name, n)
    decreases n
  {
    && (AnyTrue(domains, name, n, item) ==> Nearest(domains, name, n, item) == Some(true))
    && (n > 0 ==> Enforced(domains, domains[name].inherits.value, n - 1, item))
  }

  lemma {:induction false} TrueNearest(domains: Domains, name: Name, n: nat, item: Item)
    requires Rooted(domains, name, n) && Nearest(domains, name, n, item) == Some(true)
    ensures AnyTrue(domains, name, n, item)
    decreases n
  {
    if n > 0 && domains[name].Stated(item).None? {
      TrueNearest(domains, domains[name].inherits.value, n - 1, item);
    }
  }

  /** One accepted step loosens an item exactly at a gap; the check against the parent alone misses it. */
  lemma StepLoosensExactlyAtGap(domains: Domains, name: Name, n: nat, item: Item)
    requires Tight(domains) && Rooted(domains, name, n) && n > 0
    ensures && Nearest(domains, domains[name].inherits.value, n - 1, item) == Some(true)
            && Nearest(domains, name, n, item) != Some(true)
       <==> Gap(domains, name, n, item)
  {
    var parent := domains[name].inherits.value;
    assert Rooted(domains, parent, n - 1);
    assert Passes(domains[parent], domains[name]);
    assert !Loosens(domains[parent], domains[name], item);
    assert domains[parent].Stated(item).Some? ==> Nearest(domains, parent, n - 1, item) == domains[parent].Stated(item);
    var stated := domains[name].Stated(item);
    assert stated.None? ==> Nearest(domains, name, n, item) == Nearest(domains, parent, n - 1, item);
    if stated.Some? {
      assert stated == if stated.value then Some(true) else Some(false);
    }
  }

  /** Non-downgradable items are enforced along a whole chain exactly when the chain has no gap. */
  lemma {:induction false} EnforcedExactlyWithoutGaps(domains: Domains, name: Name, n: nat, item: Item)
    requires Tight(domains) && Rooted(domains, name, n)
    ensures Enforced(domains, name, n, item) <==> !AnyGap(domains, name, n, item)
    decreases n
  {
    if n > 0 {
      var parent := domains[name].inherits.value;
      EnforcedExactlyWithoutGaps(domains, parent, n - 1, item);
      StepLoosensExactlyAtGap(domains, name, n, item);
      if Gap(domains, name, n, item) {
        TrueNearest(domains, parent, n - 1, item);
      }
    }
  }

  lemma {:induction false} StatedHasNoGap(domains: Domains, name: Name, n: nat, item: Item)
    requires Rooted(domains, name, n) && AllState(domains, name, n, item)
    ensures !AnyGap(domains, name, n, item)
    decreases n
  {
    if n > 0 { StatedHasNoGap(domains, domains[name].inherits.value, n - 1, item); }
  }

  /** An item stated on every domain of the chain resolves to true if any of them has it true. */
  lemma StatedItemIsNeverLoosened(domains: Domains, name: Name, n: nat, item: Item)
    requires Tight(domains) && Rooted(domains, name, n)
    requires AllState(domains, name, n, item) && AnyTrue(domains, name, n, item)
    ensures Ends(domains, name, n) && Resolution(domains, name, n).Ok?
    ensures Resolution(domains, name, n).value.Stated(item) == Some(true)
  {
    StatedHasNoGap(domains, name, n, item);
    EnforcedExactlyWithoutGaps(domains, name, n, item);
    NearestWins(domains, name, n, item);
  }

  /** A domain that states nothing but, perhaps, signing. */
  function Signing(name: Name, parent: Name, sign: Option<bool>): Domain {
    Domain(name, Some(parent), None, [], sign, None, None, None, None, None, None, UniqueAppend)
  }

  /** Signing enabled, then not stated, then disabled: each step is accepted and the last domain does not sign. */
  lemma DowngradeThroughGap()
    ensures var adds := [Signing("a", "default", Some(true)), Signing("b", "a", None), Signing("c", "b", Some(false))];
            && "c" in Built(adds) && Rooted(Built(adds), "c", 3) && Rooted(Built(adds), "a", 1)
            && Nearest(Built(adds), "a", 1, EnableSignature) == Some(true)
            && Nearest(Built(adds), "c", 3, EnableSignature) == Some(false)
  {
    var a, b, c := Signing("a", "default", Some(true)), Signing("b", "a", None), Signing("c", "b", Some(false));
    BuiltThree(a, b, c);
    ThreeLevels(map["default" := DEFAULT, "a" := a, "b" := b, "c" := c]);
  }

  lemma BuiltThree(a: Domain, b: Domain, c: Domain)
    requires a == Signing("a", "default", Some(true)) && b == Signing("b", "a", None)
    requires c == Signing("c", "b", Some(false))
    ensures Built([a, b, c]) == map["default" := DEFAULT, "a" := a, "b" := b, "c" := c]
  {
    assert "a"[0] != "b"[0] && "a"[0] != "c"[0] && "b"[0] != "c"[0];
    assert Built([]) == map["default" := DEFAULT];
    BuiltNext([], a);
    assert [] + [a] == [a];
    BuiltNext([a], b);
    assert [a] + [b] == [a, b];
    BuiltNext([a, b], c);
    assert [a, b] + [c] == [a, b, c];
  }

  lemma ThreeLevels(all: Domains)
    requires "default" in all && all["default"].inherits.None?
    requires "a" in all && all["a"] == Signing("a", "default", Some(true))
    requires "b" in all && all["b"] == Signing("b", "a", None)
    requires "c" in all && all["c"] == Signing("c", "b", Some(false))
    ensures Rooted(all, "c", 3) && Rooted(all, "a", 1)
    ensures Nearest(all, "a", 1, EnableSignature) == Some(true) && Nearest(all, "c", 3, EnableSignature) == Some(false)
  {
    assert Rooted(all, "default", 0);
    assert Rooted(all, "a", 1);
    assert Rooted(all, "b", 2);
  }

  lemma BuiltNext(adds: seq<Domain>, d: Domain)
    requires Accepts(Built(adds), d)
    ensures Built(adds + [d]) == Built(adds)[d.name := d]
  {
    assert (adds + [d])[..|adds|] == adds;
  }

  /** Re-adding the default domain as its own child is accepted, and `resolve` of it never returns. */
  lemma ReaddingMakesCycle()
    ensures var d := Signing("default", "default", None);
            && Accepts(Built([]), d) && Built([d]) == map["default" := d]
            && NeverEnds(Built([d]), "default")
  {
    var d := Signing("default", "default", None);
    BuiltNext([], d);
    assert [] + [d] == [d];
    assert Climb(Built([d]), "default", 1) == Climb(Built([d]), "default", 0);
    CycleNeverEnds(Built([d]), "default", 1);
  }

  // ---------------------------------------------------------------------------------------------
  // Sinks
  // ---------------------------------------------------------------------------------------------

  lemma AppendNoDuplicates(a: seq<string>, b: seq<string>)
    ensures NoDuplicates(a + b) <==> NoDuplicates(a) && NoDuplicates(b) && forall s :: s in a ==> s !in b
  {
    var ab := a + b;
    if NoDuplicates(ab) {
      assert forall i :: 0 <= i < |a| ==> ab[i] == a[i];
      assert forall i :: 0 <= i < |b| ==> ab[|a| + i] == b[i];
      forall s | s in a ensures s !in b {
        var i :| 0 <= i < |a| && a[i] == s;
        forall j | 0 <= j < |b| ensures b[j] != s {
          assert ab[i] != ab[|a| + j];
        }
      }
      forall i, j | 0 <= i < j < |b| ensures b[i] != b[j] {
        assert ab[|a| + i] != ab[|a| + j];
      }
    } else if NoDuplicates(a) && NoDuplicates(b) {
      var i, j :| 0 <= i < j < |ab| && ab[i] == ab[j];
      assert i < |a| && j >= |a|;
      assert a[i] in a && b[j - |a|] in b;
    }
  }

  /** When one merge keeps a duplicate-free list duplicate-free. */
  lemma MergeKeepsUniqueExactlyWhen(parent: seq<string>, child: Domain)
    requires NoDuplicates(parent)
    ensures NoDuplicates(MergedSinks(parent, child)) <==>
              match child.arrayMergePolicy
              case Replace => NoDuplicates(child.sinks)
              case Append => NoDuplicates(child.sinks) && forall s :: s in parent ==> s !in child.sinks
              case UniqueAppend => true
  {
    UniqueMerges(parent, child.sinks);
    AppendNoDuplicates(parent, child.sinks);
  }

  /** No domain below the root appends, and those that keep only their own list have no duplicates in it. */
  ghost predicate WithoutAppend(domains: Domains, name: Name, n: nat)
    requires Rooted(domains, name, n)
    decreases n
  {
    if n == 0 then NoDuplicates(domains[name].sinks)
    else
      && domains[name].arrayMergePolicy != Append
      && (domains[name].arrayMergePolicy == Replace ==> NoDuplicates(domains[name].sinks))
      && WithoutAppend(domains, domains[name].inherits.value, n - 1)
  }

  lemma {:induction false} ResolvedSinksAreUnique(domains: Domains, name: Name, n: nat)
    requires Rooted(domains, name, n) && WithoutAppend(domains, name, n)
    ensures Ends(domains, name, n) && Resolution(domains, name, n).Ok?
    ensures NoDuplicates(Resolution(domains, name, n).value.sinks)
    decreases n
  {
    ResolveIsMergeOfResolvedParent(domains, name, n);
    if n > 0 {
      var parent := domains[name].inherits.value;
      ResolvedSinksAreUnique(domains, parent, n - 1);
      MergeKeepsUniqueExactlyWhen(Resolution(domains, parent, n - 1).value.sinks, domains[name]);
    }
  }
}
