/** Resolving directory patterns to nonoverlapping roots with depth budgets
    (directory_selection.py, `resolve_directory_selection`). */
module DirectorySelections {
  import opened Collections
  import opened UrlScope

  /** `"/".join(parts)` */
  function Join(parts: seq<string>): string {
    if parts == [] then "" else if |parts| == 1 then parts[0] else parts[0] + "/" + Join(parts[1..])
  }

  predicate NoSlash(parts: seq<string>) {
    forall i | 0 <= i < |parts| :: '/' !in parts[i]
  }

  lemma {:induction false} SplitHasNoSlash(s: string)
    ensures NoSlash(Split(s))
  {
    if s != [] {
      SplitHasNoSlash(s[1..]);
      var rest := Split(s[1..]);
      assert '/' !in rest[0];
      assert s[0] != '/' ==> '/' !in [s[0]] + rest[0];
    }
  }

  /** Splitting undoes joining. */
  lemma {:induction false} SplitJoin(parts: seq<string>)
    requires parts != [] && NoSlash(parts)
    ensures Split(Join(parts)) == parts
  {
    assert '/' !in parts[0];
    SplitWhole(parts[0]);
    if |parts| > 1 {
      assert forall i | 0 <= i < |parts[1..]| :: parts[1..][i] == parts[i + 1];
      SplitJoin(parts[1..]);
      SplitAtSlash(parts[0], Join(parts[1..]));
      assert parts == [parts[0]] + parts[1..];
    } else {
      assert parts == [parts[0]];
    }
  }

  /** Joining undoes splitting. */
  lemma {:induction false} JoinSplit(s: string)
    ensures Join(Split(s)) == s
    decreases |s|
  {
    var k := FirstSlash(s);
    var a := s[..k];
    SplitWhole(a);
    if k == |s| {
      assert a == s;
    } else {
      var b := s[k + 1..];
      assert s == a + "/" + b;
      SplitAtSlash(a, b);
      JoinSplit(b);
      assert ([a] + Split(b))[1..] == Split(b);
    }
  }

  lemma SameParts(a: string, b: string)
    requires Split(a) == Split(b)
    ensures a == b
  {
    JoinSplit(a);
    JoinSplit(b);
  }

  function Depth(path: string): (n: nat)
    ensures n >= 1
  {
    |Split(path)|
  }

  /** By path components, not as text. */
  predicate AtOrAbove(a: string, b: string) {
    Split(a) <= Split(b)
  }

  predicate Above(a: string, b: string) {
    AtOrAbove(a, b) && a != b
  }

  datatype Error = OutsideUrl | Incomplete | Unmappable | NoMatch

  datatype Result = Selected(budgets: map<string, int>) | Failed(error: Error)

  /** A discovered path, without its closing slashes, that a pattern selects. */
  predicate Matched(path: string, matches: string -> bool, maxDepth: int) {
    path != "" && Depth(path) <= maxDepth && matches(path)
  }

  ghost predicate IsMatch(m: string, found: seq<Option<string>>, matches: string -> bool, maxDepth: int) {
    && m != "" && Depth(m) <= maxDepth && matches(m)
    && exists i | 0 <= i < |found| :: found[i].Some? && StripSlashes(found[i].value) == m
  }

  ghost predicate Antichain(keys: set<string>) {
    forall a, b | a in keys && b in keys :: AtOrAbove(a, b) ==> a == b
  }

  ghost predicate Collects(all: set<string>, found: seq<Option<string>>, matches: string -> bool, maxDepth: int) {
    forall m :: m in all <==> IsMatch(m, found, matches, maxDepth)
  }

  /** The matches with no match above them. */
  ghost predicate Topmost(selected: set<string>, roots: set<string>) {
    forall p :: p in selected <==> p in roots && forall q | q in roots :: !Above(q, p)
  }

  /** The program's test: some proper prefix of the path's components is a root. */
  predicate HasAncestor(path: string, roots: map<string, int>) {
    exists i | 0 <= i < |Split(path)| :: Join(Split(path)[..i]) in roots
  }

  /** Enumerating textual ancestors finds exactly the roots above the path. */
  lemma AncestorsAreAbove(path: string, roots: map<string, int>)
    requires "" !in roots
    ensures HasAncestor(path, roots) <==> exists q | q in roots :: Above(q, path)
  {
    SplitHasNoSlash(path);
    if HasAncestor(path, roots) {
      var i :| 0 <= i < |Split(path)| && Join(Split(path)[..i]) in roots;
      SplitJoin(Split(path)[..i]);
      assert Above(Join(Split(path)[..i]), path);
    }
    if q :| q in roots && Above(q, path) {
      if |Split(q)| == |Split(path)| {
        assert Split(q) == Split(path);
        SameParts(q, path);
      }
      JoinSplit(q);
      assert Split(path)[..|Split(q)|] == Split(q);
    }
  }

  /** `resolve_directory_selection` after the discovery walk, which yields paths
      below the URL (`None` for one outside) and may end incomplete;
      `mappable` is the outcome of `selected_directory_targets`. */
  method ResolveSelection(found: seq<Option<string>>, incomplete: bool, matches: string -> bool,
                          mappable: set<string> -> bool, maxDepth: int) returns (r: Result)
    ensures r == Failed(OutsideUrl) <==> None in found
    ensures r.Selected? ==>
              && !incomplete && None !in found
              && Antichain(r.budgets.Keys)
              && (forall p | p in r.budgets ::
                    IsMatch(p, found, matches, maxDepth) && r.budgets[p] == maxDepth - Depth(p) >= 0)
              && forall m | IsMatch(m, found, matches, maxDepth) :: CoveredOnce(m, r.budgets, maxDepth)
    ensures forall all: set<string> | Collects(all, found, matches, maxDepth) ::
              r.Selected? <==> None !in found && !incomplete && mappable(all) && all != {}
  {
    hide Split, StripSlashes, Matched;
    var roots, order := map[], [];
    for i := 0 to |found|
      invariant None !in found[..i]
      invariant RootsAre(roots, found[..i], matches, maxDepth)
      invariant forall p :: p in order <==> p in roots
    {
      assert found[..i + 1] == found[..i] + [found[i]];
      if found[i].None? {
        return Failed(OutsideUrl);
      }
      var relative := StripSlashes(found[i].value);
      OneMoreFound(roots, found[..i], found[i], matches, maxDepth);
      if Matched(relative, matches, maxDepth) && relative !in roots {
        order := order + [relative];
        roots := roots[relative := maxDepth - Depth(relative)];
      }
    }
    assert found[..|found|] == found;
    assert forall all: set<string> | Collects(all, found, matches, maxDepth) :: all == roots.Keys;
    if incomplete {
      return Failed(Incomplete);
    }
    if !mappable(roots.Keys) {
      return Failed(Unmappable);
    }
    if roots == map[] {
      return Failed(NoMatch);
    }
    EmptyIsNoRoot(roots, found, matches, maxDepth);
    var selected: map<string, int> := map[];
    for i := 0 to |order|
      invariant forall p :: p in selected <==> p in order[..i] && !HasAncestor(p, roots)
      invariant forall p | p in selected :: p in roots && selected[p] == roots[p]
    {
      assert order[..i + 1] == order[..i] + [order[i]];
      if !HasAncestor(order[i], roots) {
        selected := selected[order[i] := roots[order[i]]];
      }
    }
    assert order[..|order|] == order;
    SelectionIsRight(selected, roots, found, matches, maxDepth);
    return Selected(selected);
  }

  ghost predicate RootsAre(roots: map<string, int>, found: seq<Option<string>>, matches: string -> bool,
      maxDepth: int) {
    && (forall m :: m in roots <==> IsMatch(m, found, matches, maxDepth))
    && (forall m | m in roots :: roots[m] == maxDepth - Depth(m))
  }

  lemma OneMoreFound(roots: map<string, int>, found: seq<Option<string>>, next: Option<string>,
                     matches: string -> bool, maxDepth: int)
    requires RootsAre(roots, found, matches, maxDepth) && next.Some?
    ensures var m := StripSlashes(next.value);
            RootsAre(if Matched(m, matches, maxDepth) && m !in roots then roots[m := maxDepth - Depth(m)] else roots,
                     found + [next], matches, maxDepth)
  {
    hide StripSlashes, Depth;
    var m := StripSlashes(next.value);
    forall x ensures IsMatch(x, found + [next], matches, maxDepth) <==>
                     IsMatch(x, found, matches, maxDepth) || (x == m && Matched(m, matches, maxDepth))
    {
      var more := found + [next];
      if i :| 0 <= i < |found| && found[i].Some? && StripSlashes(found[i].value) == x {
        assert more[i] == found[i];
      }
      assert more[|found|] == next;
    }
  }

  lemma EmptyIsNoRoot(roots: map<string, int>, found: seq<Option<string>>, matches: string -> bool, maxDepth: int)
    requires RootsAre(roots, found, matches, maxDepth)
    ensures "" !in roots
  {}

  /** Exactly one selected root is the match or above it, and its budget reaches
      the match without passing the depth limit. */
  ghost predicate CoveredOnce(m: string, budgets: map<string, int>, maxDepth: int) {
    exists p | p in budgets ::
      && AtOrAbove(p, m) && Depth(m) - Depth(p) <= budgets[p] && Depth(p) + budgets[p] == maxDepth
      && forall q | q in budgets && AtOrAbove(q, m) :: q == p
  }

  lemma SelectionIsRight(selected: map<string, int>, roots: map<string, int>, found: seq<Option<string>>,
                         matches: string -> bool, maxDepth: int)
    requires RootsAre(roots, found, matches, maxDepth) && "" !in roots
    requires forall p :: p in selected <==> p in roots && !HasAncestor(p, roots)
    requires forall p | p in selected :: p in roots && selected[p] == roots[p]
    ensures Antichain(selected.Keys)
    ensures forall p | p in selected :: IsMatch(p, found, matches, maxDepth) && selected[p] == maxDepth - Depth(p) >= 0
    ensures forall m | IsMatch(m, found, matches, maxDepth) :: CoveredOnce(m, selected, maxDepth)
  {
    hide Matched, Split, HasAncestor, Above, AtOrAbove;
    TopmostSelected(selected, roots);
    TopmostAntichain(selected.Keys, roots.Keys);
    forall p | p in roots ensures Depth(p) <= maxDepth {
      MatchedDepth(p, found, matches, maxDepth);
    }
    hide Topmost, IsMatch, Depth;
    forall m | IsMatch(m, found, matches, maxDepth) ensures CoveredOnce(m, selected, maxDepth) {
      var p := FindTop(m, selected.Keys, roots.Keys);
      OnlyOneAbove(p, m, selected.Keys, roots.Keys);
    }
  }

  lemma MatchedDepth(m: string, found: seq<Option<string>>, matches: string -> bool, maxDepth: int)
    requires IsMatch(m, found, matches, maxDepth)
    ensures Depth(m) <= maxDepth
  {}

  lemma TopmostSelected(selected: map<string, int>, roots: map<string, int>)
    requires "" !in roots && forall p :: p in selected <==> p in roots && !HasAncestor(p, roots)
    ensures Topmost(selected.Keys, roots.Keys)
  {
    hide HasAncestor, Above;
    forall p ensures p in selected.Keys <==> p in roots.Keys && forall q | q in roots.Keys :: !Above(q, p) {
      AncestorsAreAbove(p, roots);
    }
  }

  lemma TopmostAntichain(selected: set<string>, roots: set<string>)
    requires Topmost(selected, roots)
    ensures Antichain(selected)
  {
    hide AtOrAbove;
  }

  /** Every root has a topmost root at or above it. */
  lemma {:induction false} FindTop(m: string, selected: set<string>, roots: set<string>) returns (p: string)
    requires Topmost(selected, roots) && m in roots
    ensures p in selected && AtOrAbove(p, m)
    decreases |Split(m)|
  {
    hide Split;
    if q :| q in roots && Above(q, m) {
      ShorterAbove(q, m);
      p := FindTop(q, selected, roots);
    } else {
      p := m;
    }
  }

  lemma ShorterAbove(q: string, m: string)
    requires Above(q, m)
    ensures |Split(q)| < |Split(m)|
  {
    if |Split(q)| == |Split(m)| {
      assert Split(q) == Split(m);
      SameParts(q, m);
    }
  }

  lemma OnlyOneAbove(p: string, m: string, selected: set<string>, roots: set<string>)
    requires Topmost(selected, roots) && p in selected && AtOrAbove(p, m)
    ensures forall q | q in selected && AtOrAbove(q, m) :: q == p
  {
    hide Split;
    forall q | q in selected && AtOrAbove(q, m) ensures q == p {
      assert AtOrAbove(p, q) || AtOrAbove(q, p);
      assert !Above(p, q) && !Above(q, p);
    }
  }
}
