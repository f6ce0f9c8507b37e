/** What each field of a resolved domain is, given the domains on its chain (core/src/config/domain.rs:147-230). */
module DomainFields {
  import opened Domain
  import opened DomainTheorems
  import opened Wrappers

  /** The domain of this name, its parent, and so on up to a root. */
  ghost predicate Line(domains: Domains, name: Name, chain: seq<Domain>) {
    && chain != [] && name in domains && chain[0] == domains[name]
    && (forall k :: 0 <= k < |chain| - 1 ==>
          && chain[k].inherits.Some? && chain[k].inherits.value in domains
          && chain[k + 1] == domains[chain[k].inherits.value])
    && chain[|chain| - 1].inherits.None?
  }

  lemma ParentLine(domains: Domains, name: Name, chain: seq<Domain>)
    requires Line(domains, name, chain) && |chain| > 1
    ensures chain[0].inherits.Some? && Line(domains, chain[0].inherits.value, chain[1..])
  {
    assert chain[1] == domains[chain[0].inherits.value];
    forall k | 0 <= k < |chain[1..]| - 1
      ensures chain[1..][k].inherits.Some? && chain[1..][k].inherits.value in domains
      ensures chain[1..][k + 1] == domains[chain[1..][k].inherits.value]
    {
      assert chain[1..][k] == chain[k + 1];
    }
  }

  lemma {:induction false} LineIsRooted(domains: Domains, name: Name, chain: seq<Domain>)
    requires Line(domains, name, chain)
    ensures Rooted(domains, name, |chain| - 1)
    decreases |chain|
  {
    if |chain| > 1 {
      ParentLine(domains, name, chain);
      LineIsRooted(domains, chain[0].inherits.value, chain[1..]);
    }
  }

  /** The resolved domain at the bottom of a line. */
  ghost function Resolved(domains: Domains, name: Name, chain: seq<Domain>): Domain
    requires Line(domains, name, chain)
  {
    LineIsRooted(domains, name, chain);
    ResolveIsMergeOfResolvedParent(domains, name, |chain| - 1);
    Resolution(domains, name, |chain| - 1).value
  }

  lemma ResolvedMerges(domains: Domains, name: Name, chain: seq<Domain>)
    requires Line(domains, name, chain)
    ensures |chain| == 1 ==> Resolved(domains, name, chain) == chain[0]
    ensures |chain| > 1 ==>
              && chain[0].inherits.Some? && Line(domains, chain[0].inherits.value, chain[1..])
              && Resolved(domains, name, chain)
                 == Merge(Resolved(domains, chain[0].inherits.value, chain[1..]), chain[0])
  {
    LineIsRooted(domains, name, chain);
    ResolveIsMergeOfResolvedParent(domains, name, |chain| - 1);
    if |chain| > 1 { ParentLine(domains, name, chain); }
  }

  // ---------------------------------------------------------------------------------------------
  // The fields a domain may leave out
  // ---------------------------------------------------------------------------------------------

  /** The first of these values that is there. */
  ghost predicate IsNearest<T>(stated: seq<Option<T>>, value: Option<T>) {
    && (forall k :: 0 <= k < |stated| && stated[k].Some? && (forall j :: 0 <= j < k ==> stated[j].None?)
          ==> value == stated[k])
    && ((forall k :: 0 <= k < |stated| ==> stated[k].None?) ==> value.None?)
  }

  lemma NearestNext<T>(stated: seq<Option<T>>, value: Option<T>, merged: Option<T>)
    requires stated != [] && IsNearest(stated[1..], value) && merged == (if stated[0].Some? then stated[0] else value)
    ensures IsNearest(stated, merged)
  {
    forall k | 0 <= k < |stated| && stated[k].Some? && (forall j :: 0 <= j < k ==> stated[j].None?)
      ensures merged == stated[k]
    {
      if k > 0 {
        assert stated[0].None?;
        assert stated[1..][k - 1] == stated[k];
        forall j | 0 <= j < k - 1 ensures stated[1..][j].None? {
          assert stated[1..][j] == stated[j + 1];
        }
      }
    }
    if forall k :: 0 <= k < |stated| ==> stated[k].None? {
      forall k | 0 <= k < |stated[1..]| ensures stated[1..][k].None? {
        assert stated[1..][k] == stated[k + 1];
      }
    }
  }

  /** What the domains of a chain state of one field. */
  function Statements<T>(chain: seq<Domain>, field: Domain -> Option<T>): seq<Option<T>> {
    seq(|chain|, k requires 0 <= k < |chain| => field(chain[k]))
  }

  /** A merge takes this field from the child if the child states it. */
  ghost predicate Overridden<T>(field: Domain -> Option<T>) {
    forall parent, child :: field(Merge(parent, child)) == if field(child).Some? then field(child) else field(parent)
  }

  lemma {:induction false} NearestStatement<T>(domains: Domains, name: Name, chain: seq<Domain>,
                                               field: Domain -> Option<T>)
    requires Line(domains, name, chain) && Overridden(field)
    ensures IsNearest(Statements(chain, field), field(Resolved(domains, name, chain)))
    decreases |chain|
  {
    ResolvedMerges(domains, name, chain);
    if |chain| > 1 {
      var above := chain[0].inherits.value;
      NearestStatement(domains, above, chain[1..], field);
      assert Statements(chain, field)[1..] == Statements(chain[1..], field);
      NearestNext(Statements(chain, field), field(Resolved(domains, above, chain[1..])),
                  field(Resolved(domains, name, chain)));
    } else {
      assert Statements(chain, field)[0] == field(chain[0]);
    }
  }

  /** Every field that a domain may leave out resolves to what the nearest domain stating it says. */
  lemma NearestFieldByField(domains: Domains, name: Name, chain: seq<Domain>)
    requires Line(domains, name, chain)
    ensures var d := Resolved(domains, name, chain);
            && IsNearest(Statements(chain, (a: Domain) => a.level), d.level)
            && IsNearest(Statements(chain, (a: Domain) => a.performanceProfile), d.performanceProfile)
            && IsNearest(Statements(chain, (a: Domain) => a.enableSignature), d.enableSignature)
            && IsNearest(Statements(chain, (a: Domain) => a.escapeHtml), d.escapeHtml)
            && IsNearest(Statements(chain, (a: Domain) => a.wormEnabled), d.wormEnabled)
            && IsNearest(Statements(chain, (a: Domain) => a.fsyncOnWrite), d.fsyncOnWrite)
            && IsNearest(Statements(chain, (a: Domain) => a.requireTls), d.requireTls)
            && IsNearest(Statements(chain, (a: Domain) => a.signRing2), d.signRing2)
  {
    NearestStatement(domains, name, chain, (a: Domain) => a.level);
    NearestStatement(domains, name, chain, (a: Domain) => a.performanceProfile);
    NearestStatement(domains, name, chain, (a: Domain) => a.enableSignature);
    NearestStatement(domains, name, chain, (a: Domain) => a.escapeHtml);
    NearestStatement(domains, name, chain, (a: Domain) => a.wormEnabled);
    NearestStatement(domains, name, chain, (a: Domain) => a.fsyncOnWrite);
    NearestStatement(domains, name, chain, (a: Domain) => a.requireTls);
    NearestStatement(domains, name, chain, (a: Domain) => a.signRing2);
  }

  /** A resolved domain keeps its own name, and the inheritance and merge policy of its root. */
  lemma {:induction false} NameAndRoot(domains: Domains, name: Name, chain: seq<Domain>)
    requires Line(domains, name, chain)
    ensures var d := Resolved(domains, name, chain);
            && d.name == chain[0].name && d.inherits.None?
            && d.arrayMergePolicy == chain[|chain| - 1].arrayMergePolicy
    decreases |chain|
  {
    ResolvedMerges(domains, name, chain);
    if |chain| > 1 { NameAndRoot(domains, chain[0].inherits.value, chain[1..]); }
  }

  // ---------------------------------------------------------------------------------------------
  // Sinks
  // ---------------------------------------------------------------------------------------------

  /** The first place of an element. */
  ghost predicate FirstAt(s: seq<string>, k: nat, x: string) {
    k < |s| && s[k] == x && x !in s[..k]
  }

  /** `merged` is the parent's list and behind it the child's new elements, each once, in the child's order. */
  ghost predicate AppendsNew(parent: seq<string>, child: seq<string>, merged: seq<string>) {
    && |parent| <= |merged| && merged[..|parent|] == parent
    && (forall x :: x in merged <==> x in parent || x in child)
    && (forall i, j :: |parent| <= i < j < |merged| ==> merged[i] != merged[j])
    && (forall i :: |parent| <= i < |merged| ==> merged[i] !in parent)
    && (forall i, j, a: nat, b: nat {:trigger FirstAt(child, a, merged[i]), FirstAt(child, b, merged[j])} ::
          |parent| <= i < j < |merged| && FirstAt(child, a, merged[i]) && FirstAt(child, b, merged[j]) ==> a < b)
  }

  lemma UniqueNext(parent: seq<string>, front: seq<string>, before: seq<string>, child: seq<string>, x: string,
                   merged: seq<string>)
    requires AppendsNew(parent, front, before) && child == front + [x]
    requires merged == if x in before then before else before + [x]
    ensures AppendsNew(parent, child, merged)
  {
    forall i, j, a: nat, b: nat |
      |parent| <= i < j < |merged| && FirstAt(child, a, merged[i]) && FirstAt(child, b, merged[j])
      ensures a < b
    {
      if b < |front| {
        assert child[..b] == front[..b] && FirstAt(front, b, merged[j]);
        assert merged[j] in before;
        if a < |front| { assert child[..a] == front[..a] && FirstAt(front, a, merged[i]); }
      }
    }
  }

  lemma AppendsNothing(parent: seq<string>)
    ensures AppendsNew(parent, [], parent)
  {
  }

  lemma {:induction false} UniqueAppendsNew(parent: seq<string>, child: seq<string>)
    ensures AppendsNew(parent, child, Unique(parent, child))
  {
    if child == [] {
      AppendsNothing(parent);
    } else {
      var last := |child| - 1;
      UniqueAppendsNew(parent, child[..last]);
      UniqueNext(parent, child[..last], Unique(parent, child[..last]), child, child[last], Unique(parent, child));
    }
  }

  /** Nothing but the three policies decides what becomes of the sinks of a resolved parent. */
  lemma SinksByPolicy(domains: Domains, name: Name, chain: seq<Domain>)
    requires Line(domains, name, chain) && |chain| > 1
    ensures chain[0].inherits.Some? && Line(domains, chain[0].inherits.value, chain[1..])
    ensures var sinks, above := Resolved(domains, name, chain).sinks,
                                Resolved(domains, chain[0].inherits.value, chain[1..]).sinks;
            match chain[0].arrayMergePolicy
            case Replace => sinks == chain[0].sinks
            case Append => sinks == above + chain[0].sinks
            case UniqueAppend => AppendsNew(above, chain[0].sinks, sinks)
  {
    ResolvedMerges(domains, name, chain);
    UniqueAppendsNew(Resolved(domains, chain[0].inherits.value, chain[1..]).sinks, chain[0].sinks);
  }

  /** No domain below the `k`-th replaces what it inherits. */
  ghost predicate Reaches(chain: seq<Domain>, k: nat)
    requires k <= |chain|
  {
    forall j :: 0 <= j < k ==> chain[j].arrayMergePolicy != Replace
  }

  /**
   Along a chain: a sink is in the resolved list exactly if some domain lists it and no domain below that one replaces
   what it inherits.
   */
  lemma {:induction false} SinksAlongTheChain(domains: Domains, name: Name, chain: seq<Domain>, x: string)
    requires Line(domains, name, chain)
    ensures x in Resolved(domains, name, chain).sinks <==>
              exists k :: 0 <= k < |chain| && Reaches(chain, k) && x in chain[k].sinks
    decreases |chain|
  {
    ResolvedMerges(domains, name, chain);
    if |chain| > 1 {
      var above := chain[0].inherits.value;
      SinksByPolicy(domains, name, chain);
      SinksAlongTheChain(domains, above, chain[1..], x);
      ReachNext(chain, x);
    } else {
      assert Reaches(chain, 0);
    }
  }

  ghost predicate Listed(chain: seq<Domain>, x: string) {
    exists k :: 0 <= k < |chain| && Reaches(chain, k) && x in chain[k].sinks
  }

  lemma ReachNext(chain: seq<Domain>, x: string)
    requires |chain| > 1
    ensures Listed(chain, x) <==>
              x in chain[0].sinks || (chain[0].arrayMergePolicy != Replace && Listed(chain[1..], x))
  {
    assert Reaches(chain, 0);
    if Listed(chain, x) && x !in chain[0].sinks {
      var k :| 0 <= k < |chain| && Reaches(chain, k) && x in chain[k].sinks;
      forall j | 0 <= j < k - 1 ensures chain[1..][j].arrayMergePolicy != Replace {
        assert chain[1..][j] == chain[j + 1];
      }
      assert chain[0].arrayMergePolicy != Replace && Reaches(chain[1..], k - 1) && x in chain[1..][k - 1].sinks;
    }
    if chain[0].arrayMergePolicy != Replace && Listed(chain[1..], x) {
      var k :| 0 <= k < |chain[1..]| && Reaches(chain[1..], k) && x in chain[1..][k].sinks;
      forall j | 0 <= j < k + 1 ensures chain[j].arrayMergePolicy != Replace {
        if j > 0 { assert chain[1..][j - 1] == chain[j]; }
      }
      assert Reaches(chain, k + 1) && x in chain[k + 1].sinks;
    }
  }
}
