/**
 * Taking a node without a subscription off Proxmox's enterprise repositories
 * (packages/proxmox/src/repositories.ts): what to switch off, on, and add, and what that leads to.
 */
module Repositories {
  import opened Prelude

  datatype Product = Pve | Ceph(release: string)

  /** A URI as the patterns see it: on the enterprise host or not, and which product it is for, if any. */
  datatype Uri = Uri(enterprise: bool, product: Option<Product>)

  datatype Repo = Repo(enabled: bool, uris: seq<Uri>, components: seq<string>)

  datatype File = File(path: string, repos: seq<Repo>)

  /** One URI of one repository, with where it is and whether that is on. */
  datatype Line = Line(path: string, index: nat, enabled: bool, components: seq<string>, uri: Uri)

  datatype Toggle = Toggle(path: string, index: nat, enabled: bool)

  /** Repositories to turn off or on, in order, and products whose no-subscription repository is to be added. */
  datatype Change = Change(toggle: seq<Toggle>, add: seq<Product>)

  /** Proxmox's name for a product's no-subscription repository. */
  function Handle(p: Product): string {
    match p
    case Pve => "no-subscription"
    case Ceph(release) => "ceph-" + release + "-no-subscription"
  }

  /** The maps keyed by these names can as well be keyed by the products. */
  lemma HandlesAreDistinct(p: Product, q: Product)
    ensures Handle(p) == Handle(q) <==> p == q
  {
    var tail := "-no-subscription";
    if p.Ceph? && q.Ceph? && Handle(p) == Handle(q) {
      assert Handle(p)[5..|Handle(p)| - |tail|] == p.release;
      assert Handle(q)[5..|Handle(q)| - |tail|] == q.release;
    } else if p != q {
      assert Handle(if p == Pve then q else p)[0] == 'c';
    }
  }

  predicate IsNoSubscription(p: Product, components: seq<string>) {
    match p
    case Pve => "pve-no-subscription" in components
    case Ceph(_) => "no-subscription" in components
  }

  // ---------------------------------------------------------------------------
  // A node's repositories, URI by URI
  // ---------------------------------------------------------------------------

  function LinesOfUris(path: string, index: nat, repo: Repo, uris: seq<Uri>): seq<Line> {
    if uris == [] then []
    else
      var last := |uris| - 1;
      LinesOfUris(path, index, repo, uris[..last]) + [Line(path, index, repo.enabled, repo.components, uris[last])]
  }

  function LinesOfRepos(path: string, repos: seq<Repo>): seq<Line> {
    if repos == [] then []
    else
      var last := |repos| - 1;
      LinesOfRepos(path, repos[..last]) + LinesOfUris(path, last, repos[last], repos[last].uris)
  }

  function Lines(files: seq<File>): seq<Line> {
    if files == [] then []
    else
      var last := |files| - 1;
      Lines(files[..last]) + LinesOfRepos(files[last].path, files[last].repos)
  }

  // ---------------------------------------------------------------------------
  // The plan, as a function of the lines
  // ---------------------------------------------------------------------------

  predicate Enterprise(l: Line) {
    l.uri.product.Some? && l.uri.enterprise
  }

  predicate EnterpriseOn(l: Line) {
    Enterprise(l) && l.enabled
  }

  predicate NoSubscription(l: Line, p: Product) {
    l.uri.product == Some(p) && !l.uri.enterprise && IsNoSubscription(p, l.components)
  }

  function Offs(lines: seq<Line>): seq<Toggle> {
    if lines == [] then []
    else
      var last := lines[|lines| - 1];
      Offs(lines[..|lines| - 1]) + (if EnterpriseOn(last) then [Toggle(last.path, last.index, false)] else [])
  }

  /** The products an enabled enterprise repository is for, each once. */
  function Needed(lines: seq<Line>): seq<Product> {
    if lines == [] then []
    else
      var needed, last := Needed(lines[..|lines| - 1]), lines[|lines| - 1];
      if EnterpriseOn(last) && last.uri.product.value !in needed then needed + [last.uri.product.value] else needed
  }

  /** The first line that is for the product's no-subscription repository. */
  function Present(lines: seq<Line>, p: Product): Option<Line> {
    if lines == [] then None
    else
      var found, last := Present(lines[..|lines| - 1], p), lines[|lines| - 1];
      if found == None && NoSubscription(last, p) then Some(last) else found
  }

  function Ons(needed: seq<Product>, lines: seq<Line>): seq<Toggle> {
    if needed == [] then []
    else
      var rest, found := Ons(needed[..|needed| - 1], lines), Present(lines, needed[|needed| - 1]);
      if found.Some? && !found.value.enabled then rest + [Toggle(found.value.path, found.value.index, true)] else rest
  }

  function Adds(needed: seq<Product>, lines: seq<Line>): seq<Product> {
    if needed == [] then []
    else
      var rest, p := Adds(needed[..|needed| - 1], lines), needed[|needed| - 1];
      if Present(lines, p) == None then rest + [p] else rest
  }

  function Plan(lines: seq<Line>, active: bool): Change {
    if active then Change([], [])
    else Change(Offs(lines) + Ons(Needed(lines), lines), Adds(Needed(lines), lines))
  }

  /** What the planner has gathered from the lines so far. */
  ghost predicate Gathered(lines: seq<Line>, toggle: seq<Toggle>, needed: seq<Product>, present: map<Product, Line>) {
    && toggle == Offs(lines)
    && needed == Needed(lines)
    && (forall p :: p in present <==> Present(lines, p).Some?)
    && (forall p :: p in present ==> Present(lines, p) == Some(present[p]))
  }

  predicate AddsPresent(l: Line, present: map<Product, Line>) {
    l.uri.product.Some? && NoSubscription(l, l.uri.product.value) && l.uri.product.value !in present
  }

  /** What one more line adds to what is gathered. */
  lemma GatheredOn(lines: seq<Line>, l: Line, toggle: seq<Toggle>, needed: seq<Product>, present: map<Product, Line>)
    requires Gathered(lines, toggle, needed, present)
    ensures EnterpriseOn(l) ==>
      Gathered(lines + [l], toggle + [Toggle(l.path, l.index, false)],
               if l.uri.product.value in needed then needed else needed + [l.uri.product.value], present)
    ensures AddsPresent(l, present) ==> Gathered(lines + [l], toggle, needed, present[l.uri.product.value := l])
    ensures !EnterpriseOn(l) && !AddsPresent(l, present) ==> Gathered(lines + [l], toggle, needed, present)
  {
    assert (lines + [l])[..|lines|] == lines;
    assert forall p ::
      Present(lines + [l], p) ==
        if Present(lines, p) == None && NoSubscription(l, p) then Some(l) else Present(lines, p);
  }

  lemma Appended<T>(a: seq<T>, b: seq<T>, c: seq<T>)
    ensures a + b + c == a + (b + c)
  {
  }

  lemma PrefixGrows<T>(s: seq<T>, k: nat)
    requires k < |s|
    ensures s[..k + 1][..k] == s[..k] && s[..k + 1][k] == s[k]
  {
  }

  method PlanNoSubscription(files: seq<File>, active: bool) returns (change: Change)
    ensures change == Plan(Lines(files), active)
    ensures active ==> change.add == [] && SetAll(files, change.toggle) == files
  {
    if active {
      return Change([], []);
    }
    var toggle, needed, present := [], [], map[];
    for f := 0 to |files|
      invariant Gathered(Lines(files[..f]), toggle, needed, present)
    {
      toggle, needed, present := GatherFile(Lines(files[..f]), files[f], toggle, needed, present);
      PrefixGrows(files, f);
    }
    assert files[..|files|] == files;
    ghost var lines := Lines(files);
    var add := [];
    for k := 0 to |needed|
      invariant toggle == Offs(lines) + Ons(needed[..k], lines) && add == Adds(needed[..k], lines)
    {
      PrefixGrows(needed, k);
      var p := needed[k];
      if p in present && present[p].enabled {
        continue;
      }
      if p in present {
        toggle := toggle + [Toggle(present[p].path, present[p].index, true)];
      } else {
        add := add + [p];
      }
    }
    assert needed[..|needed|] == needed;
    change := Change(toggle, add);
  }

  /** The two inner loops, over one file. */
  method GatherFile(ghost before: seq<Line>, file: File, toggleBefore: seq<Toggle>, neededBefore: seq<Product>,
                    presentBefore: map<Product, Line>)
      returns (toggle: seq<Toggle>, needed: seq<Product>, present: map<Product, Line>)
    requires Gathered(before, toggleBefore, neededBefore, presentBefore)
    ensures Gathered(before + LinesOfRepos(file.path, file.repos), toggle, needed, present)
  {
    toggle, needed, present := toggleBefore, neededBefore, presentBefore;
    assert before + [] == before;
    for r := 0 to |file.repos|
      invariant Gathered(before + LinesOfRepos(file.path, file.repos[..r]), toggle, needed, present)
    {
      var repo := file.repos[r];
      ghost var here := before + LinesOfRepos(file.path, file.repos[..r]);
      assert here + [] == here;
      for u := 0 to |repo.uris|
        invariant Gathered(here + LinesOfUris(file.path, r, repo, repo.uris[..u]), toggle, needed, present)
      {
        var l := Line(file.path, r, repo.enabled, repo.components, repo.uris[u]);
        ghost var lines := here + LinesOfUris(file.path, r, repo, repo.uris[..u]);
        GatheredOn(lines, l, toggle, needed, present);
        PrefixGrows(repo.uris, u);
        Appended(here, LinesOfUris(file.path, r, repo, repo.uris[..u]), [l]);
        if l.uri.product.None? {
          continue;
        }
        var p := l.uri.product.value;
        if l.uri.enterprise {
          if repo.enabled {
            toggle := toggle + [Toggle(file.path, r, false)];
            if p !in needed {
              needed := needed + [p];
            }
          }
        } else if IsNoSubscription(p, repo.components) && p !in present {
          present := present[p := l];
        }
      }
      assert repo.uris[..|repo.uris|] == repo.uris;
      PrefixGrows(file.repos, r);
      Appended(before, LinesOfRepos(file.path, file.repos[..r]), LinesOfUris(file.path, r, repo, repo.uris));
    }
    assert file.repos[..|file.repos|] == file.repos;
  }

  // ---------------------------------------------------------------------------
  // What a change does to a node's repositories
  // ---------------------------------------------------------------------------

  function SetRepos(repos: seq<Repo>, index: nat, enabled: bool): (r: seq<Repo>)
    ensures |r| == |repos|
  {
    if index < |repos| then repos[index := repos[index].(enabled := enabled)] else repos
  }

  function SetFile(file: File, t: Toggle): File {
    if file.path == t.path then file.(repos := SetRepos(file.repos, t.index, t.enabled)) else file
  }

  function SetFiles(files: seq<File>, t: Toggle): (r: seq<File>)
    ensures |r| == |files|
  {
    seq(|files|, k requires 0 <= k < |files| => SetFile(files[k], t))
  }

  function SetAll(files: seq<File>, toggles: seq<Toggle>): seq<File> {
    if toggles == [] then files else SetFiles(SetAll(files, toggles[..|toggles| - 1]), toggles[|toggles| - 1])
  }

  /** The repository Proxmox adds for a product: on, and for its no-subscription components. */
  function Standard(p: Product): Repo {
    Repo(true, [Uri(false, Some(p))], [if p == Pve then "pve-no-subscription" else "no-subscription"])
  }

  function Standards(add: seq<Product>): (r: seq<Repo>)
    ensures |r| == |add|
  {
    seq(|add|, k requires 0 <= k < |add| => Standard(add[k]))
  }

  /** A node's repositories after the change, the added ones in a file of their own. */
  function Applied(files: seq<File>, change: Change, path: string): seq<File> {
    SetAll(files, change.toggle) + [File(path, Standards(change.add))]
  }

  // ---------------------------------------------------------------------------
  // The same, line by line
  // ---------------------------------------------------------------------------

  predicate At(l: Line, t: Toggle) {
    l.path == t.path && l.index == t.index
  }

  function Switched(l: Line, t: Toggle): Line {
    if At(l, t) then l.(enabled := t.enabled) else l
  }

  function SwitchedAll(lines: seq<Line>, t: Toggle): (r: seq<Line>)
    ensures |r| == |lines|
    ensures forall k :: 0 <= k < |lines| ==> r[k] == Switched(lines[k], t)
  {
    seq(|lines|, k requires 0 <= k < |lines| => Switched(lines[k], t))
  }

  lemma SwitchedConcat(a: seq<Line>, b: seq<Line>, t: Toggle)
    ensures SwitchedAll(a + b, t) == SwitchedAll(a, t) + SwitchedAll(b, t)
  {
  }

  lemma {:induction false} SwitchedUris(path: string, index: nat, repo: Repo, uris: seq<Uri>, t: Toggle, after: Repo)
    requires after == if path == t.path && index == t.index then repo.(enabled := t.enabled) else repo
    ensures LinesOfUris(path, index, after, uris) == SwitchedAll(LinesOfUris(path, index, repo, uris), t)
  {
    if uris != [] {
      var n := |uris| - 1;
      SwitchedUris(path, index, repo, uris[..n], t, after);
      SwitchedConcat(LinesOfUris(path, index, repo, uris[..n]),
                     [Line(path, index, repo.enabled, repo.components, uris[n])], t);
    }
  }

  lemma {:induction false} SwitchedRepos(path: string, repos: seq<Repo>, t: Toggle, after: seq<Repo>)
    requires after == if path == t.path then SetRepos(repos, t.index, t.enabled) else repos
    ensures LinesOfRepos(path, after) == SwitchedAll(LinesOfRepos(path, repos), t)
  {
    if repos != [] {
      var n := |repos| - 1;
      assert after[..n] == if path == t.path then SetRepos(repos[..n], t.index, t.enabled) else repos[..n];
      SwitchedRepos(path, repos[..n], t, after[..n]);
      SwitchedUris(path, n, repos[n], repos[n].uris, t, after[n]);
      SwitchedConcat(LinesOfRepos(path, repos[..n]), LinesOfUris(path, n, repos[n], repos[n].uris), t);
    }
  }

  lemma {:induction false} SwitchedFiles(files: seq<File>, t: Toggle)
    ensures Lines(SetFiles(files, t)) == SwitchedAll(Lines(files), t)
  {
    if files != [] {
      var n := |files| - 1;
      var after := SetFiles(files, t);
      assert after[..n] == SetFiles(files[..n], t);
      SwitchedFiles(files[..n], t);
      SwitchedRepos(files[n].path, files[n].repos, t, after[n].repos);
      SwitchedConcat(Lines(files[..n]), LinesOfRepos(files[n].path, files[n].repos), t);
    }
  }

  /** Where a repository stands after all the toggles: as the last one for it says. */
  function Final(l: Line, toggles: seq<Toggle>): Line {
    if toggles == [] then l else Switched(Final(l, toggles[..|toggles| - 1]), toggles[|toggles| - 1])
  }

  function FinalAll(lines: seq<Line>, toggles: seq<Toggle>): (r: seq<Line>)
    ensures |r| == |lines|
    ensures forall k :: 0 <= k < |lines| ==> r[k] == Final(lines[k], toggles)
  {
    seq(|lines|, k requires 0 <= k < |lines| => Final(lines[k], toggles))
  }

  lemma {:induction false} LinesOfSetAll(files: seq<File>, toggles: seq<Toggle>)
    ensures Lines(SetAll(files, toggles)) == FinalAll(Lines(files), toggles)
  {
    if toggles != [] {
      LinesOfSetAll(files, toggles[..|toggles| - 1]);
      SwitchedFiles(SetAll(files, toggles[..|toggles| - 1]), toggles[|toggles| - 1]);
    }
  }

  lemma {:induction false} LinesOfStandards(path: string, add: seq<Product>)
    ensures |LinesOfRepos(path, Standards(add))| == |add|
    ensures forall k :: 0 <= k < |add| ==> LinesOfRepos(path, Standards(add))[k] == StandardLine(path, k, add[k])
  {
    if add != [] {
      var n := |add| - 1;
      assert Standards(add)[..n] == Standards(add[..n]);
      LinesOfStandards(path, add[..n]);
      assert LinesOfUris(path, n, Standard(add[n]), Standard(add[n]).uris) == [StandardLine(path, n, add[n])];
    }
  }

  function StandardLine(path: string, k: nat, p: Product): Line {
    Line(path, k, true, Standard(p).components, Uri(false, Some(p)))
  }

  /** After a change there are the lines there were, switched, and one for each added product. */
  lemma LinesOfApplied(files: seq<File>, change: Change, path: string)
    ensures Lines(Applied(files, change, path))
      == FinalAll(Lines(files), change.toggle) + LinesOfRepos(path, Standards(change.add))
  {
    LinesOfSetAll(files, change.toggle);
    var all := Applied(files, change, path);
    assert all[..|all| - 1] == SetAll(files, change.toggle);
  }

  // ---------------------------------------------------------------------------
  // What the plan's lists hold
  // ---------------------------------------------------------------------------

  predicate SamePlace(l: Line, m: Line) {
    l.path == m.path && l.index == m.index
  }

  lemma {:induction false} OffAt(lines: seq<Line>, l: Line)
    ensures (exists t :: t in Offs(lines) && At(l, t))
      <==> exists k :: 0 <= k < |lines| && EnterpriseOn(lines[k]) && SamePlace(lines[k], l)
    ensures forall t :: t in Offs(lines) ==> !t.enabled
  {
    if lines != [] {
      var init, last := lines[..|lines| - 1], lines[|lines| - 1];
      OffAt(init, l);
      assert forall k :: 0 <= k < |init| ==> init[k] == lines[k];
      if EnterpriseOn(last) && SamePlace(last, l) {
        var t := Toggle(last.path, last.index, false);
        assert t in Offs(lines) && At(l, t);
      }
      if t :| t in Offs(init) && At(l, t) {
        assert t in Offs(lines);
      }
    }
  }

  lemma {:induction false} NeededIff(lines: seq<Line>, p: Product)
    ensures p in Needed(lines)
      <==> exists k :: 0 <= k < |lines| && EnterpriseOn(lines[k]) && lines[k].uri.product == Some(p)
  {
    if lines != [] {
      var init := lines[..|lines| - 1];
      NeededIff(init, p);
      assert forall k :: 0 <= k < |init| ==> init[k] == lines[k];
    }
  }

  lemma {:induction false} PresentIs(lines: seq<Line>, p: Product)
    ensures Present(lines, p).Some? ==> NoSubscription(Present(lines, p).value, p)
                                        && exists k :: 0 <= k < |lines| && lines[k] == Present(lines, p).value
    ensures Present(lines, p) == None ==> forall k :: 0 <= k < |lines| ==> !NoSubscription(lines[k], p)
  {
    if lines != [] {
      var init := lines[..|lines| - 1];
      PresentIs(init, p);
      assert forall k :: 0 <= k < |init| ==> init[k] == lines[k];
    }
  }

  /** The product's no-subscription repository is there, at this place, and off. */
  predicate OffBefore(lines: seq<Line>, p: Product, l: Line) {
    var found := Present(lines, p);
    found.Some? && !found.value.enabled && SamePlace(found.value, l)
  }

  lemma {:induction false} OnAt(needed: seq<Product>, lines: seq<Line>, l: Line)
    ensures (exists t :: t in Ons(needed, lines) && At(l, t)) <==> exists p :: p in needed && OffBefore(lines, p, l)
    ensures forall t :: t in Ons(needed, lines) ==> t.enabled
  {
    if needed != [] {
      var init, last := needed[..|needed| - 1], needed[|needed| - 1];
      OnAt(init, lines, l);
      assert needed == init + [last];
      if OffBefore(lines, last, l) {
        var found := Present(lines, last).value;
        var t := Toggle(found.path, found.index, true);
        assert t in Ons(needed, lines) && At(l, t);
      }
      if t :| t in Ons(init, lines) && At(l, t) {
        assert t in Ons(needed, lines);
      }
    }
  }

  lemma {:induction false} AddsIff(needed: seq<Product>, lines: seq<Line>, p: Product)
    ensures p in Adds(needed, lines) <==> p in needed && Present(lines, p) == None
  {
    if needed != [] {
      var init, last := needed[..|needed| - 1], needed[|needed| - 1];
      AddsIff(init, lines, p);
      assert needed == init + [last];
    }
  }

  /** Toggles that all turn on, or all turn off, leave what they are for that way. */
  lemma {:induction false} FinalUniform(l: Line, toggles: seq<Toggle>, enabled: bool)
    requires forall t :: t in toggles ==> t.enabled == enabled
    ensures Final(l, toggles) == if exists t :: t in toggles && At(l, t) then l.(enabled := enabled) else l
  {
    if toggles != [] {
      var init, last := toggles[..|toggles| - 1], toggles[|toggles| - 1];
      assert toggles == init + [last];
      assert forall t :: t in toggles <==> t in init || t == last;
      FinalUniform(l, init, enabled);
    }
  }

  lemma {:induction false} FinalConcat(l: Line, a: seq<Toggle>, b: seq<Toggle>)
    ensures Final(l, a + b) == Final(Final(l, a), b)
  {
    if b != [] {
      assert (a + b)[..|a + b| - 1] == a + b[..|b| - 1];
      FinalConcat(l, a, b[..|b| - 1]);
    } else {
      assert a + b == a;
    }
  }

  /** A repository of this place is on, for the enterprise: it will be turned off. */
  ghost predicate TurnedOff(lines: seq<Line>, l: Line) {
    exists k :: 0 <= k < |lines| && EnterpriseOn(lines[k]) && SamePlace(lines[k], l)
  }

  /** This place has the first no-subscription repository of a product that needs one, and it is off. */
  ghost predicate TurnedOn(lines: seq<Line>, l: Line) {
    exists p :: p in Needed(lines) && OffBefore(lines, p, l)
  }

  /** Where the plan leaves a repository: on when it turns it on, whatever it did before, or leaves it on. */
  ghost predicate LeftOn(lines: seq<Line>, l: Line) {
    TurnedOn(lines, l) || (l.enabled && !TurnedOff(lines, l))
  }

  lemma FinalIs(lines: seq<Line>, l: Line)
    ensures Final(l, Plan(lines, false).toggle) == l.(enabled := LeftOn(lines, l))
  {
    var offs, ons := Offs(lines), Ons(Needed(lines), lines);
    OffAt(lines, l);
    OnAt(Needed(lines), lines, l);
    FinalConcat(l, offs, ons);
    FinalUniform(l, offs, false);
    var after := Final(l, offs);
    OnAt(Needed(lines), lines, after);
    FinalUniform(after, ons, true);
    assert forall t :: At(after, t) == At(l, t);
  }

  // ---------------------------------------------------------------------------
  // What it comes to
  // ---------------------------------------------------------------------------

  function After(files: seq<File>, path: string): seq<Line> {
    Lines(Applied(files, Plan(Lines(files), false), path))
  }

  ghost predicate NoneEnterprise(lines: seq<Line>) {
    forall k :: 0 <= k < |lines| ==> !EnterpriseOn(lines[k])
  }

  ghost predicate HasNoSubscription(lines: seq<Line>, p: Product) {
    exists k :: 0 <= k < |lines| && lines[k].enabled && NoSubscription(lines[k], p)
  }

  /** No repository that is to be turned on has an enterprise URI as well. */
  ghost predicate NothingMixedTurnedOn(lines: seq<Line>) {
    forall k :: 0 <= k < |lines| && Enterprise(lines[k]) ==> !TurnedOn(lines, lines[k])
  }

  /** No repository has an enterprise URI and one that counts as a no-subscription one. */
  ghost predicate NothingMixed(lines: seq<Line>) {
    forall j, k, p ::
      0 <= j < |lines| && 0 <= k < |lines| && Enterprise(lines[j]) && NoSubscription(lines[k], p) ==>
        !SamePlace(lines[j], lines[k])
  }

  /** Each line there was is there still, switched; those for products with no repository to turn on follow. */
  lemma AfterIs(files: seq<File>, path: string)
    ensures IsAfter(Lines(files), After(files, path), path, Adds(Needed(Lines(files)), Lines(files)))
  {
    var before, change := Lines(files), Plan(Lines(files), false);
    LinesOfApplied(files, change, path);
    LinesOfStandards(path, change.add);
    FinalAllIs(before);
    Joined(before, FinalAll(before, change.toggle), LinesOfRepos(path, Standards(change.add)), path, change.add);
  }

  ghost predicate IsAfter(before: seq<Line>, after: seq<Line>, path: string, add: seq<Product>) {
    && |after| == |before| + |add|
    && (forall k :: 0 <= k < |before| ==> after[k] == before[k].(enabled := LeftOn(before, before[k])))
    && (forall k ::
        |before| <= k < |before| + |add| ==> after[k] == StandardLine(path, k - |before|, add[k - |before|]))
  }

  lemma Joined(before: seq<Line>, switched: seq<Line>, added: seq<Line>, path: string, add: seq<Product>)
    requires |switched| == |before| && |added| == |add|
    requires forall k :: 0 <= k < |before| ==> switched[k] == before[k].(enabled := LeftOn(before, before[k]))
    requires forall k :: 0 <= k < |add| ==> added[k] == StandardLine(path, k, add[k])
    ensures IsAfter(before, switched + added, path, add)
  {
    var after := switched + added;
    assert forall k :: 0 <= k < |before| ==> after[k] == switched[k];
    assert forall k :: |before| <= k < |after| ==> after[k] == added[k - |before|];
  }

  lemma FinalAllIs(lines: seq<Line>)
    ensures forall k :: 0 <= k < |lines| ==>
      FinalAll(lines, Plan(lines, false).toggle)[k] == lines[k].(enabled := LeftOn(lines, lines[k]))
  {
    forall k | 0 <= k < |lines|
      ensures FinalAll(lines, Plan(lines, false).toggle)[k] == lines[k].(enabled := LeftOn(lines, lines[k]))
    {
      FinalIs(lines, lines[k]);
    }
  }

  /** The change leaves no enterprise repository on, exactly when it turns none on itself. */
  lemma NoneLeftIff(files: seq<File>, path: string)
    ensures NoneEnterprise(After(files, path)) <==> NothingMixedTurnedOn(Lines(files))
  {
    AfterIs(files, path);
    var before := Lines(files);
    EnterpriseAfterIff(before, After(files, path), path, Adds(Needed(before), before));
  }

  lemma EnterpriseAfterIff(before: seq<Line>, after: seq<Line>, path: string, add: seq<Product>)
    requires IsAfter(before, after, path, add)
    ensures NoneEnterprise(after) <==> NothingMixedTurnedOn(before)
  {
    forall k | 0 <= k < |before| && Enterprise(before[k])
      ensures EnterpriseOn(after[k]) <==> TurnedOn(before, before[k])
    {
      OnOnlyIfTurnedOn(before, k);
    }
    forall k | |before| <= k < |after| ensures !EnterpriseOn(after[k]) {
      assert after[k] == StandardLine(path, k - |before|, add[k - |before|]);
    }
    if k :| 0 <= k < |before| && Enterprise(before[k]) && TurnedOn(before, before[k]) {
      assert EnterpriseOn(after[k]);
    }
    if k :| 0 <= k < |after| && EnterpriseOn(after[k]) {
      assert k < |before| && Enterprise(before[k]);
    }
  }

  lemma OnOnlyIfTurnedOn(lines: seq<Line>, k: nat)
    requires k < |lines| && Enterprise(lines[k])
    ensures LeftOn(lines, lines[k]) <==> TurnedOn(lines, lines[k])
  {
    assert SamePlace(lines[k], lines[k]);
  }

  /** A node with an active subscription keeps every repository as it is. */
  lemma SubscribedIsLeftAlone(files: seq<File>, path: string)
    ensures Lines(Applied(files, Plan(Lines(files), true), path)) == Lines(files)
  {
    var file := File(path, Standards([]));
    assert LinesOfRepos(path, file.repos) == [];
    assert (files + [file])[..|files|] == files;
  }

  /** Then, and only then, planning again finds nothing to change. */
  lemma NothingMoreIff(files: seq<File>, path: string)
    ensures Plan(After(files, path), false) == Change([], []) <==> NothingMixedTurnedOn(Lines(files))
  {
    NoneLeftIff(files, path);
    EmptyIff(After(files, path));
  }

  lemma EmptyIff(lines: seq<Line>)
    ensures Plan(lines, false) == Change([], []) <==> NoneEnterprise(lines)
  {
    if k :| 0 <= k < |lines| && EnterpriseOn(lines[k]) {
      OffAt(lines, lines[k]);
      assert SamePlace(lines[k], lines[k]);
    }
    if NoneEnterprise(lines) {
      NoneNeeded(lines);
    }
  }

  lemma {:induction false} NoneNeeded(lines: seq<Line>)
    requires NoneEnterprise(lines)
    ensures Offs(lines) == [] && Needed(lines) == []
  {
    if lines != [] {
      var init := lines[..|lines| - 1];
      assert forall k :: 0 <= k < |init| ==> init[k] == lines[k];
      NoneNeeded(init);
    }
  }

  /** The product's no-subscription repository is missing, or one of them is left on. */
  ghost predicate Provided(lines: seq<Line>, p: Product) {
    Present(lines, p) == None || exists k :: 0 <= k < |lines| && NoSubscription(lines[k], p) && LeftOn(lines, lines[k])
  }

  /** A product that needs one has a no-subscription repository on afterwards, exactly when one is added or left on. */
  lemma ReplacedIff(files: seq<File>, path: string, p: Product)
    requires p in Needed(Lines(files))
    ensures HasNoSubscription(After(files, path), p) <==> Provided(Lines(files), p)
  {
    var before, after := Lines(files), After(files, path);
    AfterIs(files, path);
    AddsIff(Needed(before), before, p);
    OnAfterIff(before, after, path, Adds(Needed(before), before), p);
  }

  lemma OnAfterIff(before: seq<Line>, after: seq<Line>, path: string, add: seq<Product>, p: Product)
    requires IsAfter(before, after, path, add) && (p in add <==> Present(before, p) == None)
    ensures HasNoSubscription(after, p) <==> Provided(before, p)
  {
    if p in add {
      var k :| 0 <= k < |add| && add[k] == p;
      assert after[|before| + k] == StandardLine(path, k, p);
      StandardIsNoSubscription(path, k, p);
    }
    if k :| 0 <= k < |after| && after[k].enabled && NoSubscription(after[k], p) {
      if k < |before| {
        assert NoSubscription(before[k], p);
      } else {
        assert add[k - |before|] == p;
      }
    }
    if k :| 0 <= k < |before| && NoSubscription(before[k], p) && LeftOn(before, before[k]) {
      assert after[k].enabled && NoSubscription(after[k], p);
    }
  }

  lemma StandardIsNoSubscription(path: string, k: nat, p: Product)
    ensures NoSubscription(StandardLine(path, k, p), p)
  {
  }

  /**
   * Where no repository mixes the two kinds: nothing of the enterprise is left on, every product that had it has
   * its no-subscription repository on, and nothing else is touched but those and the enterprise ones.
   */
  lemma SwitchedOver(files: seq<File>, path: string)
    requires NothingMixed(Lines(files))
    ensures NoneEnterprise(After(files, path)) && Plan(After(files, path), false) == Change([], [])
    ensures forall p :: p in Needed(Lines(files)) ==> HasNoSubscription(After(files, path), p)
    ensures Untouched(Lines(files), After(files, path))
  {
    var before, after := Lines(files), After(files, path);
    forall k | 0 <= k < |before| && Enterprise(before[k]) ensures !TurnedOn(before, before[k]) {
      forall p ensures !OffBefore(before, p, before[k]) {
        PresentIs(before, p);
      }
    }
    NoneLeftIff(files, path);
    NothingMoreIff(files, path);
    forall p | p in Needed(before) ensures HasNoSubscription(after, p) {
      FirstPresentIsOn(before, p);
      ReplacedIff(files, path, p);
    }
    AfterIs(files, path);
  }

  ghost predicate KeptUnlessSwitched(before: seq<Line>, l: Line, after: Line) {
    && after == l.(enabled := after.enabled)
    && (after != l ==> TurnedOff(before, l) || TurnedOn(before, l))
  }

  ghost predicate Untouched(before: seq<Line>, after: seq<Line>) {
    |before| <= |after| && forall k :: 0 <= k < |before| ==> KeptUnlessSwitched(before, before[k], after[k])
  }

  lemma FirstPresentIsOn(lines: seq<Line>, p: Product)
    requires NothingMixed(lines) && p in Needed(lines)
    ensures Provided(lines, p)
  {
    PresentIs(lines, p);
    if Present(lines, p).Some? {
      var k :| 0 <= k < |lines| && lines[k] == Present(lines, p).value;
      assert !lines[k].enabled ==> OffBefore(lines, p, lines[k]);
    }
  }

  lemma LinesOfOne(path: string, repo: Repo, u: Uri, v: Uri)
    requires repo.uris == [u, v]
    ensures Lines([File(path, [repo])]) ==
      [Line(path, 0, repo.enabled, repo.components, u), Line(path, 0, repo.enabled, repo.components, v)]
  {
    var l, m := Line(path, 0, repo.enabled, repo.components, u), Line(path, 0, repo.enabled, repo.components, v);
    assert [u, v][..1] == [u] && [u][..0] == [];
    assert LinesOfUris(path, 0, repo, [u]) == [l];
    assert LinesOfUris(path, 0, repo, [u, v]) == [l] + [m];
    assert LinesOfRepos(path, [repo]) == [] + LinesOfUris(path, 0, repo, repo.uris);
    var file := File(path, [repo]);
    assert Lines([file]) == [] + LinesOfRepos(path, [repo]);
  }

  /** With both kinds in one repository that is on, a product ends up with neither. */
  lemma MixedLosesBoth(path: string, repo: Repo)
    requires repo.enabled && repo.uris == [Uri(true, Some(Pve)), Uri(false, Some(Pve))]
    requires "pve-no-subscription" in repo.components
    ensures var files := [File("pve.sources", [repo])];
            Pve in Needed(Lines(files)) && !HasNoSubscription(After(files, path), Pve)
  {
    var files := [File("pve.sources", [repo])];
    var lines := Lines(files);
    LinesOfOne("pve.sources", repo, repo.uris[0], repo.uris[1]);
    assert EnterpriseOn(lines[0]) && NoSubscription(lines[1], Pve) && SamePlace(lines[0], lines[1]);
    NeededIff(lines, Pve);
    MixedNotProvided(lines);
    ReplacedIff(files, path, Pve);
  }

  lemma MixedNotProvided(lines: seq<Line>)
    requires |lines| == 2 && EnterpriseOn(lines[0]) && lines[0].uri.product == Some(Pve)
    requires lines[1].enabled && NoSubscription(lines[1], Pve) && SamePlace(lines[0], lines[1])
    ensures !Provided(lines, Pve)
  {
    PresentIs(lines, Pve);
    assert Present(lines, Pve) == Some(lines[1]);
    forall p | p in Needed(lines) ensures !OffBefore(lines, p, lines[1]) {
      NeededIff(lines, p);
      assert p == Pve;
    }
    assert TurnedOff(lines, lines[1]);
    assert !TurnedOn(lines, lines[1]);
  }

  /** With both kinds in one that is off, the plan turns an enterprise repository on itself, and has more to change. */
  lemma MixedIsTurnedOn(path: string, on: Repo, off: Repo)
    requires on.enabled && on.uris == [Uri(true, Some(Pve))]
    requires !off.enabled && off.uris == [Uri(true, Some(Pve)), Uri(false, Some(Pve))]
    requires "pve-no-subscription" in off.components
    ensures var files := [File("pve.sources", [on, off])];
            !NoneEnterprise(After(files, path)) && Plan(After(files, path), false) != Change([], [])
  {
    var files := [File("pve.sources", [on, off])];
    var lines := Lines(files);
    LinesOfTwo("pve.sources", on, off);
    MixedTurnedOn(lines);
    NoneLeftIff(files, path);
    NothingMoreIff(files, path);
  }

  lemma LinesOfTwo(path: string, on: Repo, off: Repo)
    requires |on.uris| == 1 && |off.uris| == 2
    ensures Lines([File(path, [on, off])]) ==
      [Line(path, 0, on.enabled, on.components, on.uris[0]), Line(path, 1, off.enabled, off.components, off.uris[0]),
       Line(path, 1, off.enabled, off.components, off.uris[1])]
  {
    var k := Line(path, 0, on.enabled, on.components, on.uris[0]);
    var l, m := Line(path, 1, off.enabled, off.components, off.uris[0]),
      Line(path, 1, off.enabled, off.components, off.uris[1]);
    var u, v := off.uris[0], off.uris[1];
    assert on.uris == [on.uris[0]] && off.uris == [u, v];
    assert [on.uris[0]][..0] == [] && [u, v][..1] == [u] && [u][..0] == [];
    assert LinesOfUris(path, 0, on, [on.uris[0]]) == [] + [k];
    assert LinesOfUris(path, 1, off, [u]) == [] + [l];
    assert LinesOfUris(path, 1, off, [u, v]) == [l] + [m];
    assert [on, off][..1] == [on] && [on][..0] == [];
    assert LinesOfRepos(path, [on]) == [] + LinesOfUris(path, 0, on, on.uris);
    assert LinesOfRepos(path, [on, off]) == LinesOfRepos(path, [on]) + LinesOfUris(path, 1, off, off.uris);
    var file := File(path, [on, off]);
    assert Lines([file]) == [] + LinesOfRepos(path, [on, off]);
  }

  lemma MixedTurnedOn(lines: seq<Line>)
    requires |lines| == 3 && EnterpriseOn(lines[0]) && lines[0].uri.product == Some(Pve)
    requires Enterprise(lines[1]) && !lines[2].enabled && NoSubscription(lines[2], Pve) && SamePlace(lines[2], lines[1])
    ensures !NothingMixedTurnedOn(lines)
  {
    NeededIff(lines, Pve);
    assert Present(lines[..2], Pve) == None by {
      PresentIs(lines[..2], Pve);
    }
    assert Present(lines, Pve) == Some(lines[2]);
    assert OffBefore(lines, Pve, lines[1]);
    assert TurnedOn(lines, lines[1]);
  }

  // ---------------------------------------------------------------------------
  // The channel Ceph is on
  // ---------------------------------------------------------------------------

  datatype Channel = EnterpriseChannel | NoSubscriptionChannel

  predicate CephOn(l: Line) {
    l.enabled && l.uri.product.Some? && l.uri.product.value.Ceph?
  }

  predicate CephEnterprise(l: Line) {
    CephOn(l) && l.uri.enterprise
  }

  predicate CephNoSubscription(l: Line) {
    CephOn(l) && !l.uri.enterprise && "no-subscription" in l.components
  }

  /** Enterprise when any enabled Ceph repository is, else no-subscription when any is that. */
  ghost function ChannelOf(lines: seq<Line>): Option<Channel> {
    if exists k :: 0 <= k < |lines| && CephEnterprise(lines[k]) then Some(EnterpriseChannel)
    else if exists k :: 0 <= k < |lines| && CephNoSubscription(lines[k]) then Some(NoSubscriptionChannel)
    else None
  }

  /** What is known of the channel from the lines so far, none of which is on the enterprise host. */
  ghost predicate SoFar(lines: seq<Line>, channel: Option<Channel>) {
    ChannelOf(lines) == channel && channel != Some(EnterpriseChannel)
  }

  lemma SoFarOn(lines: seq<Line>, l: Line, channel: Option<Channel>)
    requires SoFar(lines, channel)
    ensures CephEnterprise(l) ==> ChannelOf(lines + [l]) == Some(EnterpriseChannel)
    ensures CephNoSubscription(l) ==> SoFar(lines + [l], Some(NoSubscriptionChannel))
    ensures !CephEnterprise(l) && !CephNoSubscription(l) ==> SoFar(lines + [l], channel)
  {
    var all := lines + [l];
    assert forall k :: 0 <= k < |lines| ==> all[k] == lines[k];
    assert all[|lines|] == l;
    if k :| 0 <= k < |lines| && CephNoSubscription(lines[k]) {
      assert CephNoSubscription(all[k]);
    }
  }

  lemma SoFarOff(lines: seq<Line>, more: seq<Line>, channel: Option<Channel>)
    requires SoFar(lines, channel) && forall k :: 0 <= k < |more| ==> !more[k].enabled
    ensures SoFar(lines + more, channel)
  {
    var all := lines + more;
    assert forall k :: 0 <= k < |lines| ==> all[k] == lines[k];
    assert forall k :: |lines| <= k < |all| ==> all[k] == more[k - |lines|];
    if k :| 0 <= k < |lines| && CephNoSubscription(lines[k]) {
      assert CephNoSubscription(all[k]);
    }
  }

  lemma {:induction false} EnabledOfUris(path: string, index: nat, repo: Repo, uris: seq<Uri>)
    ensures forall k ::
      0 <= k < |LinesOfUris(path, index, repo, uris)| ==>
        LinesOfUris(path, index, repo, uris)[k].enabled == repo.enabled
  {
    if uris != [] {
      EnabledOfUris(path, index, repo, uris[..|uris| - 1]);
    }
  }

  lemma {:induction false} LinesSplit(files: seq<File>, k: nat)
    requires k <= |files|
    ensures Lines(files[..k]) <= Lines(files)
    decreases |files| - k
  {
    if k < |files| {
      PrefixGrows(files, k);
      LinesSplit(files, k + 1);
    } else {
      assert files[..k] == files;
    }
  }

  lemma {:induction false} ReposSplit(path: string, repos: seq<Repo>, k: nat)
    requires k <= |repos|
    ensures LinesOfRepos(path, repos[..k]) <= LinesOfRepos(path, repos)
    decreases |repos| - k
  {
    if k < |repos| {
      PrefixGrows(repos, k);
      ReposSplit(path, repos, k + 1);
    } else {
      assert repos[..k] == repos;
    }
  }

  lemma {:induction false} UrisSplit(path: string, index: nat, repo: Repo, k: nat)
    requires k <= |repo.uris|
    ensures LinesOfUris(path, index, repo, repo.uris[..k]) <= LinesOfUris(path, index, repo, repo.uris)
    decreases |repo.uris| - k
  {
    if k < |repo.uris| {
      PrefixGrows(repo.uris, k);
      UrisSplit(path, index, repo, k + 1);
    } else {
      assert repo.uris[..k] == repo.uris;
    }
  }

  method CephChannelOf(files: seq<File>) returns (channel: Option<Channel>)
    ensures channel == ChannelOf(Lines(files))
  {
    channel := None;
    for f := 0 to |files|
      invariant SoFar(Lines(files[..f]), channel)
    {
      var file := files[f];
      ghost var before := Lines(files[..f]);
      assert before + [] == before;
      for r := 0 to |file.repos|
        invariant SoFar(before + LinesOfRepos(file.path, file.repos[..r]), channel)
      {
        var repo := file.repos[r];
        ghost var here := before + LinesOfRepos(file.path, file.repos[..r]);
        ghost var uris := LinesOfUris(file.path, r, repo, repo.uris);
        Appended(before, LinesOfRepos(file.path, file.repos[..r]), uris);
        PrefixGrows(file.repos, r);
        if !repo.enabled {
          EnabledOfUris(file.path, r, repo, repo.uris);
          SoFarOff(here, uris, channel);
          continue;
        }
        assert here + [] == here;
        for u := 0 to |repo.uris|
          invariant SoFar(here + LinesOfUris(file.path, r, repo, repo.uris[..u]), channel)
        {
          var uri := repo.uris[u];
          ghost var l := Line(file.path, r, repo.enabled, repo.components, uri);
          SoFarOn(here + LinesOfUris(file.path, r, repo, repo.uris[..u]), l, channel);
          PrefixGrows(repo.uris, u);
          Appended(here, LinesOfUris(file.path, r, repo, repo.uris[..u]), [l]);
          if uri.product.None? || uri.product == Some(Pve) {
            continue;
          }
          if uri.enterprise {
            EnterpriseFound(files, f, r, u);
            return Some(EnterpriseChannel);
          }
          if "no-subscription" in repo.components {
            channel := Some(NoSubscriptionChannel);
          }
        }
        assert repo.uris[..|repo.uris|] == repo.uris;
      }
      assert file.repos[..|file.repos|] == file.repos;
      PrefixGrows(files, f);
    }
    assert files[..|files|] == files;
  }

  /** One enabled Ceph repository on the enterprise host decides it. */
  lemma EnterpriseFound(files: seq<File>, f: nat, r: nat, u: nat)
    requires f < |files| && r < |files[f].repos| && u < |files[f].repos[r].uris|
    requires CephEnterprise(Line(files[f].path, r, files[f].repos[r].enabled, files[f].repos[r].components,
                                 files[f].repos[r].uris[u]))
    ensures ChannelOf(Lines(files)) == Some(EnterpriseChannel)
  {
    var repos := LinesOfRepos(files[f].path, files[f].repos);
    var repo := files[f].repos[r];
    var l := Line(files[f].path, r, repo.enabled, repo.components, repo.uris[u]);
    FoundInRepos(files[f].path, files[f].repos, r, u);
    PrefixGrows(files, f);
    LinesSplit(files, f + 1);
    Occurs(Lines(files[..f]), repos, Lines(files), l);
    var k :| 0 <= k < |Lines(files)| && Lines(files)[k] == l;
  }

  ghost predicate Among(lines: seq<Line>, l: Line) {
    exists k :: 0 <= k < |lines| && lines[k] == l
  }

  lemma FoundInUris(path: string, index: nat, repo: Repo, u: nat)
    requires u < |repo.uris|
    ensures Among(LinesOfUris(path, index, repo, repo.uris),
                  Line(path, index, repo.enabled, repo.components, repo.uris[u]))
  {
    var before := LinesOfUris(path, index, repo, repo.uris[..u]);
    var l := Line(path, index, repo.enabled, repo.components, repo.uris[u]);
    PrefixGrows(repo.uris, u);
    UrisSplit(path, index, repo, u + 1);
    assert [l][0] == l;
    Occurs(before, [l], LinesOfUris(path, index, repo, repo.uris), l);
  }

  lemma FoundInRepos(path: string, repos: seq<Repo>, r: nat, u: nat)
    requires r < |repos| && u < |repos[r].uris|
    ensures Among(LinesOfRepos(path, repos), Line(path, r, repos[r].enabled, repos[r].components, repos[r].uris[u]))
  {
    FoundInUris(path, r, repos[r], u);
    PrefixGrows(repos, r);
    ReposSplit(path, repos, r + 1);
    Occurs(LinesOfRepos(path, repos[..r]), LinesOfUris(path, r, repos[r], repos[r].uris), LinesOfRepos(path, repos),
           Line(path, r, repos[r].enabled, repos[r].components, repos[r].uris[u]));
  }

  /** What occurs in a part occurs in the whole. */
  lemma Occurs(before: seq<Line>, part: seq<Line>, whole: seq<Line>, l: Line)
    requires before + part <= whole && Among(part, l)
    ensures Among(whole, l)
  {
    var k :| 0 <= k < |part| && part[k] == l;
    assert whole[|before| + k] == (before + part)[|before| + k];
  }

  /** A node whose Ceph was on the enterprise channel is on the no-subscription one after the change. */
  lemma CephIsSwitchedOver(files: seq<File>, path: string)
    requires NothingMixed(Lines(files)) && ChannelOf(Lines(files)) == Some(EnterpriseChannel)
    ensures ChannelOf(After(files, path)) == Some(NoSubscriptionChannel)
  {
    var before, after := Lines(files), After(files, path);
    var k :| 0 <= k < |before| && CephEnterprise(before[k]);
    var p := before[k].uri.product.value;
    NeededIff(before, p);
    assert EnterpriseOn(before[k]) && before[k].uri.product == Some(p);
    SwitchedOver(files, path);
    ChannelAfter(after, p);
  }

  lemma ChannelAfter(lines: seq<Line>, p: Product)
    requires p.Ceph? && NoneEnterprise(lines) && HasNoSubscription(lines, p)
    ensures ChannelOf(lines) == Some(NoSubscriptionChannel)
  {
    assert forall k :: 0 <= k < |lines| && CephEnterprise(lines[k]) ==> EnterpriseOn(lines[k]);
    var k :| 0 <= k < |lines| && lines[k].enabled && NoSubscription(lines[k], p);
    assert CephNoSubscription(lines[k]);
  }
}
