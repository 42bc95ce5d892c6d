/**
  The sidebar state: whether the navigation panel is expanded, and the list of
  section names whose entries are shown. toggleSection removes a section that is
  listed and appends one that is not.
 */
module SidebarContext {
  import opened Wrappers

  /** The message the guard raises when no provider encloses the caller. */
  const SidebarProviderMissing: string := "useSidebar must be used within a SidebarProvider"

  /** The sections a fresh provider shows expanded. */
  const InitialSections: seq<string> := ["clients", "processes"]

  /** No section name is listed twice. */
  predicate NoDuplicates(s: seq<string>) {
    forall i, j :: 0 <= i < j < |s| ==> s[i] != s[j]
  }

  /** `r` is `s` with some elements dropped and the rest in their original order. */
  predicate IsSubsequence(r: seq<string>, s: seq<string>)
    decreases |s|
  {
    if s == [] then r == []
    else (r != [] && r[0] == s[0] && IsSubsequence(r[1..], s[1..])) || IsSubsequence(r, s[1..])
  }

  /** The list with every occurrence of `x` filtered out. */
  function Without(s: seq<string>, x: string): (r: seq<string>)
    ensures x !in r
    ensures forall y :: y != x ==> (y in r <==> y in s)
    ensures multiset(r) == multiset(s)[x := 0]
    decreases |s|
  {
    if s == [] then []
    else
      assert s == [s[0]] + s[1..];
      if s[0] == x then Without(s[1..], x)
      else [s[0]] + Without(s[1..], x)
  }

  /** The list update of toggleSection: drop `x` if it is listed, otherwise append it. */
  function Toggle(s: seq<string>, x: string): (r: seq<string>)
    ensures x in r <==> x !in s
    ensures forall y :: y != x ==> (y in r <==> y in s)
    ensures x in s ==> r == Without(s, x)
    ensures x !in s ==> |r| == |s| + 1 && r[..|s|] == s && r[|s|] == x
  {
    if x in s then Without(s, x) else s + [x]
  }

  /** What the provider publishes to the components below it. */
  datatype SidebarContextValue = SidebarContextValue(isExpanded: bool, expandedSections: seq<string>)

  /** The provider's two state cells, replaced by toggleSidebar and toggleSection. */
  class SidebarProvider {
    var isExpanded: bool
    var expandedSections: seq<string>

    /** The invariant every reachable state keeps: no section is listed twice. */
    predicate Valid()
      reads this
    {
      NoDuplicates(expandedSections)
    }

    /** A fresh provider is expanded and shows the clients and processes sections. */
    constructor ()
      ensures isExpanded
      ensures expandedSections == InitialSections
      ensures Valid()
    {
      isExpanded := true;
      expandedSections := InitialSections;
    }

    method ToggleSidebar()
      modifies this
      ensures isExpanded == !old(isExpanded)
      ensures expandedSections == old(expandedSections)
    {
      isExpanded := !isExpanded;
    }

    method ToggleSection(section: string)
      modifies this
      ensures expandedSections == Toggle(old(expandedSections), section)
      ensures isExpanded == old(isExpanded)
      ensures old(Valid()) ==> Valid()
    {
      if Valid() {
        ToggleKeepsNoDuplicates(expandedSections, section);
      }
      expandedSections := Toggle(expandedSections, section);
    }
  }

  /** The guard of useSidebar: the enclosing provider's value, or an error when there is none. */
  function UseSidebar(context: Option<SidebarContextValue>): (r: Result<SidebarContextValue, string>)
    ensures r.Success? <==> context.Some?
    ensures r.Success? ==> r.value == context.value
    ensures r.Failure? ==> r.error == SidebarProviderMissing
  {
    match context
    case None => Failure(SidebarProviderMissing)
    case Some(c) => Success(c)
  }

  /** Filtering is order-preserving: it distributes over concatenation. */
  lemma {:induction false} WithoutAppend(a: seq<string>, b: seq<string>, x: string)
    ensures Without(a + b, x) == Without(a, x) + Without(b, x)
    decreases |a|
  {
    if a == [] {
      assert a + b == b;
    } else {
      assert (a + b)[1..] == a[1..] + b;
      WithoutAppend(a[1..], b, x);
    }
  }

  /** The filtered list keeps the other elements in their original relative order. */
  lemma {:induction false} WithoutIsSubsequence(s: seq<string>, x: string)
    ensures IsSubsequence(Without(s, x), s)
    decreases |s|
  {
    if s != [] {
      WithoutIsSubsequence(s[1..], x);
      if s[0] != x {
        assert ([s[0]] + Without(s[1..], x))[1..] == Without(s[1..], x);
      }
    }
  }

  /** Filtering out a name that is not listed changes nothing. */
  lemma {:induction false} WithoutAbsent(s: seq<string>, x: string)
    requires x !in s
    ensures Without(s, x) == s
    decreases |s|
  {
    if s != [] {
      WithoutAbsent(s[1..], x);
    }
  }

  /** Filtering keeps a duplicate-free list duplicate-free. */
  lemma {:induction false} WithoutKeepsNoDuplicates(s: seq<string>, x: string)
    requires NoDuplicates(s)
    ensures NoDuplicates(Without(s, x))
    decreases |s|
  {
    if s != [] {
      assert NoDuplicates(s[1..]) by {
        forall i, j | 0 <= i < j < |s[1..]| ensures s[1..][i] != s[1..][j] {
          assert s[1..][i] == s[i + 1] && s[1..][j] == s[j + 1];
        }
      }
      WithoutKeepsNoDuplicates(s[1..], x);
      if s[0] != x {
        assert s[0] !in s[1..] by {
          forall k | 0 <= k < |s[1..]| ensures s[1..][k] != s[0] {
            assert s[1..][k] == s[k + 1];
          }
        }
        ConsKeepsNoDuplicates(s[0], Without(s[1..], x));
      }
    }
  }

  /** Putting a new name in front of a duplicate-free list keeps it duplicate-free. */
  lemma ConsKeepsNoDuplicates(a: string, t: seq<string>)
    requires NoDuplicates(t) && a !in t
    ensures NoDuplicates([a] + t)
  {
  }

  /** toggleSection keeps the "no section listed twice" invariant. */
  lemma ToggleKeepsNoDuplicates(s: seq<string>, x: string)
    requires NoDuplicates(s)
    ensures NoDuplicates(Toggle(s, x))
  {
    if x in s {
      WithoutKeepsNoDuplicates(s, x);
    } else {
      var r := s + [x];
      forall i, j | 0 <= i < j < |r| ensures r[i] != r[j] {
        if j == |s| {
          assert r[i] == s[i];
        } else {
          assert r[i] == s[i] && r[j] == s[j];
        }
      }
    }
  }

  /** In a duplicate-free list, toggling a listed section removes exactly one entry. */
  lemma ToggleListedRemovesOne(s: seq<string>, x: string)
    requires NoDuplicates(s) && x in s
    ensures |Toggle(s, x)| == |s| - 1
  {
    CountOnce(s, x);
    var r := Toggle(s, x);
    assert |multiset(r)| == |r| && |multiset(s)| == |s|;
    assert multiset(s) == multiset(s)[x := 0] + multiset{x};
  }

  /** A name listed in a duplicate-free list occurs there exactly once. */
  lemma {:induction false} CountOnce(s: seq<string>, x: string)
    requires NoDuplicates(s) && x in s
    ensures multiset(s)[x] == 1
    decreases |s|
  {
    assert s == [s[0]] + s[1..];
    assert NoDuplicates(s[1..]) by {
      forall i, j | 0 <= i < j < |s[1..]| ensures s[1..][i] != s[1..][j] {
        assert s[1..][i] == s[i + 1] && s[1..][j] == s[j + 1];
      }
    }
    if s[0] == x {
      assert x !in s[1..] by {
        forall k | 0 <= k < |s[1..]| ensures s[1..][k] != x {
          assert s[1..][k] == s[k + 1];
        }
      }
      assert multiset(s[1..])[x] == 0;
    } else {
      CountOnce(s[1..], x);
    }
  }

  /** Toggling a section twice restores which sections are listed. */
  lemma ToggleTwiceRestoresMembership(s: seq<string>, x: string, y: string)
    ensures y in Toggle(Toggle(s, x), x) <==> y in s
  {
  }

  /** Toggling an unlisted section twice restores the list exactly. */
  lemma ToggleTwiceUnlistedRestoresList(s: seq<string>, x: string)
    requires x !in s
    ensures Toggle(Toggle(s, x), x) == s
  {
    assert s + [x] == Toggle(s, x);
    WithoutAppend(s, [x], x);
    WithoutAbsent(s, x);
    assert Without([x], x) == [];
  }

  /** Toggling a listed section twice moves it to the end, behind the others in their order. */
  lemma ToggleTwiceListedMovesToEnd(s: seq<string>, x: string)
    requires x in s
    ensures Toggle(Toggle(s, x), x) == Without(s, x) + [x]
  {
  }
}
