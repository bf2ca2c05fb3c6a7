/** validate_path of the Wings file manager: a stack machine over path components for targets that do not exist, and
    canonicalisation for those that do. */
module Paths {
  import opened Common
  import opened Text

  /** The names of an absolute path, from the file system root down. */
  type Path = seq<string>

  datatype Component = RootDir | CurDir | ParentDir | Normal(name: string)

  /** WingsError::PathTraversal and the I/O errors, told apart by the check that raises them. */
  datatype Refusal =
    | NullByte | StillAbsolute | RootMissing | CannotResolve | ResolvesOutside
    | AtRoot | PoppedOutside | NotAName | EndsOutside

  /** What the file system says about the joined path: exists() and, if so, canonicalize(). */
  datatype Probe = Missing | Resolved(path: Path) | Failed

  function TrimSlashes(s: string): string {
    if s != "" && s[0] == '/' then TrimSlashes(s[1..]) else s
  }

  /** Path::components below the leading slash: empty segments vanish, `.` counts only in front. */
  function SegmentComponents(segments: seq<string>, first: bool): seq<Component> {
    if segments == [] then []
    else
      (if segments[0] == "" then []
       else if segments[0] == "." then (if first then [CurDir] else [])
       else if segments[0] == ".." then [ParentDir]
       else [Normal(segments[0])])
      + SegmentComponents(segments[1..], false)
  }

  function Components(path: string): seq<Component> {
    (if path != "" && path[0] == '/' then [RootDir] else []) + SegmentComponents(Split(path, '/'), true)
  }

  function Pop(p: Path): Path {
    if p == [] then p else p[..|p| - 1]
  }

  // ------------------------------------------------------------------------------------------------
  // The code: every check in its place.

  function Walk(root: Path, normalized: Path, components: seq<Component>): Result<Path, Refusal>
    decreases |components|
  {
    if components == [] then Ok(normalized)
    else
      match components[0]
      case Normal(name) => Walk(root, normalized + [name], components[1..])
      case ParentDir =>
        if !(root <= normalized) || normalized == root then Err(AtRoot)
        else if !(root <= Pop(normalized)) then Err(PoppedOutside)
        else Walk(root, Pop(normalized), components[1..])
      case CurDir => Walk(root, normalized, components[1..])
      case RootDir => Err(NotAName)
  }

  function Lexical(root: Path, clean: string): Result<Path, Refusal> {
    var walked := Walk(root, root, Components(clean));
    if walked.Ok? && !(root <= walked.value) then Err(EndsOutside) else walked
  }

  function Validate(root: Option<Path>, requested: string, probe: Probe): Result<Path, Refusal> {
    var clean := TrimSlashes(requested);
    if '\0' in requested then Err(NullByte)
    else if clean != "" && clean[0] == '/' then Err(StillAbsolute)
    else if root.None? then Err(RootMissing)
    else
      match probe
      case Failed => Err(CannotResolve)
      case Resolved(path) => if root.value <= path then Ok(path) else Err(ResolvesOutside)
      case Missing => Lexical(root.value, clean)
  }

  method ValidatePath(root: Option<Path>, requested: string, probe: Probe) returns (r: Result<Path, Refusal>)
    ensures r == Validate(root, requested, probe)
    ensures '\0' in requested ==> r == Err(NullByte)
    ensures '\0' !in requested && root.None? ==> r == Err(RootMissing)
    ensures '\0' !in requested && root.Some? && probe.Failed? ==> r == Err(CannotResolve)
    ensures '\0' !in requested && root.Some? && probe.Resolved? ==>
      r == if root.value <= probe.path then Ok(probe.path) else Err(ResolvesOutside)
    ensures '\0' !in requested && root.Some? && probe.Missing? ==>
      var cs := Components(TrimSlashes(requested));
      r == if StaysInside(cs, 0) then Ok(root.value + NormalForm(cs)) else Err(AtRoot)
  {
    TrimmedIsRelative(requested);
    if '\0' !in requested && root.Some? {
      MissingTargetAccepted(root.value, requested);
    }
    if '\0' in requested {
      return Err(NullByte);
    }
    var clean := TrimSlashes(requested);
    if clean != "" && clean[0] == '/' {
      return Err(StillAbsolute);
    }
    if root.None? {
      return Err(RootMissing);
    }
    var canonicalRoot := root.value;
    match probe {
      case Failed => return Err(CannotResolve);
      case Resolved(path) =>
        if !(canonicalRoot <= path) {
          return Err(ResolvesOutside);
        }
        return Ok(path);
      case Missing =>
    }
    var normalized := canonicalRoot;
    var components := Components(clean);
    for i := 0 to |components|
      invariant Walk(canonicalRoot, normalized, components[i..]) == Walk(canonicalRoot, canonicalRoot, components)
    {
      assert components[i..][0] == components[i] && components[i..][1..] == components[i + 1..];
      match components[i] {
        case Normal(name) => normalized := normalized + [name];
        case ParentDir =>
          if !(canonicalRoot <= normalized) || normalized == canonicalRoot {
            return Err(AtRoot);
          }
          normalized := Pop(normalized);
          if !(canonicalRoot <= normalized) {
            return Err(PoppedOutside);
          }
        case CurDir =>
        case RootDir => return Err(NotAName);
      }
    }
    if !(canonicalRoot <= normalized) {
      return Err(EndsOutside);
    }
    return Ok(normalized);
  }

  // ------------------------------------------------------------------------------------------------
  // The reference: counting names against `..`, and cancelling from the right.

  function Depth(components: seq<Component>): int {
    if components == [] then 0
    else
      (if components[0].Normal? then 1 else if components[0].ParentDir? then -1 else 0) + Depth(components[1..])
  }

  /** Every prefix has at least as many names as `..`, when `depth` names come before it. */
  ghost predicate StaysInside(components: seq<Component>, depth: nat) {
    forall i :: 0 <= i <= |components| ==> 0 <= depth + Depth(components[..i])
  }

  /** Reads the components from the last to the first; `skip` names are still to be cancelled by a `..`. */
  function FromRight(components: seq<Component>, skip: nat): seq<string> {
    if components == [] then []
    else
      var init, last := components[..|components| - 1], components[|components| - 1];
      match last
      case ParentDir => FromRight(init, skip + 1)
      case Normal(name) => if skip > 0 then FromRight(init, skip - 1) else FromRight(init, 0) + [name]
      case _ => FromRight(init, skip)
  }

  /** The lexical normal form: every `..` cancels the nearest name before it that is still there. */
  function NormalForm(components: seq<Component>): seq<string> {
    FromRight(components, 0)
  }

  ghost predicate Relative(components: seq<Component>) {
    forall i :: 0 <= i < |components| ==> !components[i].RootDir?
  }

  lemma {:induction false} WalkStays(root: Path, normalized: Path, components: seq<Component>)
    requires root <= normalized && Relative(components)
    ensures var r := Walk(root, normalized, components);
      if StaysInside(components, |normalized| - |root|) then r.Ok? && root <= r.value else r == Err(AtRoot)
    decreases |components|
  {
    var depth := |normalized| - |root|;
    if components == [] {
      assert forall i :: 0 <= i <= |components| ==> components[..i] == [];
    } else {
      var c, rest := components[0], components[1..];
      var step := Depth([c]);
      assert Depth([c]) == (if c.Normal? then 1 else if c.ParentDir? then -1 else 0) by { assert [c][1..] == []; }
      assert forall i :: 0 <= i <= |rest| ==> components[..i + 1][0] == c && components[..i + 1][1..] == rest[..i];
      assert forall i :: 0 <= i <= |rest| ==> Depth(components[..i + 1]) == step + Depth(rest[..i]);
      assert components[..0] == [];
      if 0 <= depth + step {
        InsideTail(components, depth, step);
        var next := if c.Normal? then normalized + [c.name] else if c.ParentDir? then Pop(normalized) else normalized;
        WalkStays(root, next, rest);
      } else {
        assert rest[..0] == [] && depth + Depth(components[..0 + 1]) < 0;
      }
    }
  }

  lemma InsideTail(components: seq<Component>, depth: nat, step: int)
    requires components != [] && 0 <= depth + step && components[..0] == []
    requires forall i :: 0 <= i < |components| ==> Depth(components[..i + 1]) == step + Depth(components[1..][..i])
    ensures StaysInside(components, depth) <==> StaysInside(components[1..], depth + step)
  {
    var rest := components[1..];
    if StaysInside(rest, depth + step) {
      forall i | 0 <= i <= |components| ensures 0 <= depth + Depth(components[..i]) {
        if i > 0 {
          assert Depth(components[..i - 1 + 1]) == step + Depth(rest[..i - 1]);
        }
      }
    }
    if StaysInside(components, depth) {
      forall i | 0 <= i <= |rest| ensures 0 <= depth + step + Depth(rest[..i]) {
        assert 0 <= depth + Depth(components[..i + 1]);
      }
    }
  }

  lemma {:induction false} WalkConcat(root: Path, normalized: Path, xs: seq<Component>, ys: seq<Component>)
    ensures var r := Walk(root, normalized, xs);
      Walk(root, normalized, xs + ys) == if r.Ok? then Walk(root, r.value, ys) else r
    decreases |xs|
  {
    if xs == [] {
      assert xs + ys == ys;
    } else {
      assert (xs + ys)[0] == xs[0] && (xs + ys)[1..] == xs[1..] + ys;
      match xs[0] {
        case Normal(name) => WalkConcat(root, normalized + [name], xs[1..], ys);
        case ParentDir => WalkConcat(root, Pop(normalized), xs[1..], ys);
        case CurDir => WalkConcat(root, normalized, xs[1..], ys);
        case RootDir =>
      }
    }
  }

  /** The last component acts on what the others left. */
  lemma WalkSnoc(root: Path, init: seq<Component>, last: Component)
    requires Relative(init + [last]) && Walk(root, root, init + [last]).Ok?
    ensures Walk(root, root, init).Ok? && root <= Walk(root, root, init).value
    ensures var q := Walk(root, root, init).value;
      Walk(root, root, init + [last]).value ==
        if last.Normal? then q + [last.name] else if last.ParentDir? then Pop(q) else q
    ensures last.ParentDir? ==> |root| < |Walk(root, root, init).value|
  {
    assert Relative(init) by {
      forall i | 0 <= i < |init| ensures !init[i].RootDir? { assert (init + [last])[i] == init[i]; }
    }
    assert (init + [last])[|init|] == last && [last][1..] == [];
    WalkConcat(root, root, init, [last]);
    WalkStays(root, root, init);
  }

  /** Cancelling from the right gives what the stack machine has left when it accepts. */
  lemma {:induction false} WalkIsFromRight(root: Path, components: seq<Component>, skip: nat)
    requires Relative(components) && Walk(root, root, components).Ok? && root <= Walk(root, root, components).value
    requires skip <= |Walk(root, root, components).value| - |root|
    ensures var p := Walk(root, root, components).value;
      root + FromRight(components, skip) == p[..|p| - skip]
    decreases |components|
  {
    if components != [] {
      var n := |components| - 1;
      var init, last := components[..n], components[n];
      assert components == init + [last];
      WalkSnoc(root, init, last);
      var q := Walk(root, root, init).value;
      match last {
        case ParentDir => WalkIsFromRight(root, init, skip + 1);
        case Normal(name) =>
          WalkIsFromRight(root, init, if skip > 0 then skip - 1 else 0);
          assert q[..|q| - 0] == q && (q + [name])[..|q| + 1] == q + [name];
        case CurDir => WalkIsFromRight(root, init, skip);
      }
    }
  }

  lemma {:induction false} SegmentsAreRelative(segments: seq<string>, first: bool)
    ensures Relative(SegmentComponents(segments, first))
  {
    if segments != [] {
      SegmentsAreRelative(segments[1..], false);
    }
  }

  lemma {:induction false} TrimmedIsRelative(s: string)
    ensures TrimSlashes(s) == "" || TrimSlashes(s)[0] != '/'
    ensures Relative(Components(TrimSlashes(s)))
  {
    if s != "" && s[0] == '/' {
      TrimmedIsRelative(s[1..]);
    } else {
      SegmentsAreRelative(Split(s, '/'), true);
    }
  }

  /** MAIN RESULT. A target that does not exist is accepted exactly when no prefix of its components has more `..`
      than names; the result is then the root followed by the lexical normal form. */
  lemma MissingTargetAccepted(root: Path, requested: string)
    requires '\0' !in requested
    ensures var cs := Components(TrimSlashes(requested));
      Validate(Some(root), requested, Missing) == if StaysInside(cs, 0) then Ok(root + NormalForm(cs)) else Err(AtRoot)
  {
    var cs := Components(TrimSlashes(requested));
    TrimmedIsRelative(requested);
    WalkStays(root, root, cs);
    if StaysInside(cs, 0) {
      WalkIsFromRight(root, cs, 0);
      var p := Walk(root, root, cs).value;
      assert p[..|p| - 0] == p;
    }
  }

  /** MAIN RESULT. Whatever the file system answers, a returned path is the root or below it, and the check after
      trimming, the check after popping, the check for a non-name and the final check are never the ones that refuse.
      For an existing target the path is the one the file system resolved; for a missing one it is lexical, and says
      nothing about links above it. */
  lemma AcceptedStaysBelowRoot(root: Path, requested: string, probe: Probe)
    ensures var r := Validate(Some(root), requested, probe);
      && (r.Ok? ==> root <= r.value)
      && (r.Err? ==> r.error !in {StillAbsolute, PoppedOutside, NotAName, EndsOutside})
  {
    TrimmedIsRelative(requested);
    WalkStays(root, root, Components(TrimSlashes(requested)));
  }

  // ------------------------------------------------------------------------------------------------
  // A file system without symbolic links.

  datatype Tree = Tree(dirs: set<Path>, files: set<Path>)

  predicate ValidName(name: string) {
    name != "" && name != "." && name != ".." && '/' !in name && '\0' !in name
  }

  ghost predicate WellFormed(fs: Tree) {
    && fs.dirs !! fs.files
    && (forall p :: p in fs.dirs + fs.files ==> p == [] || Pop(p) in fs.dirs)
    && (forall p, i :: p in fs.dirs + fs.files && 0 <= i < |p| ==> ValidName(p[i]))
  }

  /** Path resolution by the kernel: every segment but the last must be reached through a directory, and `..` of the
      root directory is the root directory. */
  function Resolve(fs: Tree, at: Path, segments: seq<string>): Option<Path>
    decreases |segments|
  {
    if segments == [] then Some(at)
    else if at !in fs.dirs then None
    else if segments[0] == "" || segments[0] == "." then Resolve(fs, at, segments[1..])
    else if segments[0] == ".." then Resolve(fs, Pop(at), segments[1..])
    else if at + [segments[0]] in fs.dirs + fs.files then Resolve(fs, at + [segments[0]], segments[1..])
    else None
  }

  function Look(fs: Tree, root: Path, requested: string): Probe {
    var found := Resolve(fs, root, Split(TrimSlashes(requested), '/'));
    if found.Some? then Resolved(found.value) else Missing
  }

  function ValidateIn(fs: Tree, root: Path, requested: string): Result<Path, Refusal> {
    Validate(Some(root), requested, Look(fs, root, requested))
  }

  lemma {:induction false} ResolveIsWalk(fs: Tree, root: Path, at: Path, segments: seq<string>, first: bool)
    requires Resolve(fs, at, segments).Some? && Walk(root, at, SegmentComponents(segments, first)).Ok?
    ensures Resolve(fs, at, segments).value == Walk(root, at, SegmentComponents(segments, first)).value
    decreases |segments|
  {
    if segments != [] {
      var s, rest := segments[0], segments[1..];
      var tail := SegmentComponents(rest, false);
      if s == "" {
        assert SegmentComponents(segments, first) == tail;
        ResolveIsWalk(fs, root, at, rest, false);
      } else if s == "." {
        assert SegmentComponents(segments, first) == (if first then [CurDir] else []) + tail;
        assert ([CurDir] + tail)[1..] == tail && [] + tail == tail;
        ResolveIsWalk(fs, root, at, rest, false);
      } else if s == ".." {
        assert SegmentComponents(segments, first) == [ParentDir] + tail && ([ParentDir] + tail)[1..] == tail;
        ResolveIsWalk(fs, root, Pop(at), rest, false);
      } else {
        assert SegmentComponents(segments, first) == [Normal(s)] + tail && ([Normal(s)] + tail)[1..] == tail;
        ResolveIsWalk(fs, root, at + [s], rest, false);
      }
    }
  }

  /** MAIN RESULT. Without symbolic links the two branches agree: when a path exists and its normalisation stays under
      the root, canonicalising gives the lexical result. */
  lemma BranchesAgree(fs: Tree, root: Path, requested: string)
    requires '\0' !in requested && Look(fs, root, requested).Resolved?
    requires StaysInside(Components(TrimSlashes(requested)), 0)
    ensures ValidateIn(fs, root, requested) == Validate(Some(root), requested, Missing)
    ensures ValidateIn(fs, root, requested) == Ok(root + NormalForm(Components(TrimSlashes(requested))))
  {
    var clean := TrimSlashes(requested);
    TrimmedIsRelative(requested);
    MissingTargetAccepted(root, requested);
    assert Components(clean) == SegmentComponents(Split(clean, '/'), true);
    ResolveIsWalk(fs, root, root, Split(clean, '/'), true);
  }

  /** The condition is exact: for a path that exists under the root the two branches agree if and only if its
      normalisation stays under the root. A path that leaves and comes back is accepted only while it exists. */
  lemma BranchesAgreeIff(fs: Tree, root: Path, requested: string)
    requires '\0' !in requested && Look(fs, root, requested).Resolved? && root <= Look(fs, root, requested).path
    ensures ValidateIn(fs, root, requested) == Validate(Some(root), requested, Missing)
       <==> StaysInside(Components(TrimSlashes(requested)), 0)
  {
    TrimmedIsRelative(requested);
    MissingTargetAccepted(root, requested);
    if StaysInside(Components(TrimSlashes(requested)), 0) {
      BranchesAgree(fs, root, requested);
    }
  }

  lemma SplitBack()
    ensures Split("../srv/a", '/') == ["..", "srv", "a"]
  {
    SplitFirst("..", "srv/a", '/');
    SplitFirst("srv", "a", '/');
    SplitWithout("a", '/');
    assert "../srv/a" == ".." + ['/'] + "srv/a" && "srv/a" == "srv" + ['/'] + "a";
  }

  lemma ResolveBack(fs: Tree)
    requires [] in fs.dirs && ["srv"] in fs.dirs && ["srv", "a"] in fs.files
    ensures Resolve(fs, ["srv"], ["..", "srv", "a"]) == Some(["srv", "a"])
  {
    assert ["..", "srv", "a"][1..] == ["srv", "a"] && ["srv", "a"][1..] == ["a"] && ["a"][1..] == [];
    assert Pop(["srv"]) == [] && [] + ["srv"] == ["srv"] && ["srv"] + ["a"] == ["srv", "a"];
    assert Resolve(fs, ["srv", "a"], []) == Some(["srv", "a"]);
    assert Resolve(fs, ["srv"], ["a"]) == Some(["srv", "a"]);
    assert Resolve(fs, [], ["srv", "a"]) == Some(["srv", "a"]);
  }

  /** Paths that leave and come back exist: in /srv, `../srv/a` names /srv/a. */
  lemma ReturningExists(fs: Tree)
    requires [] in fs.dirs && ["srv"] in fs.dirs && ["srv", "a"] in fs.files
    ensures Look(fs, ["srv"], "../srv/a") == Resolved(["srv", "a"])
    ensures !StaysInside(Components("../srv/a"), 0)
  {
    SplitBack();
    ResolveBack(fs);
    assert TrimSlashes("../srv/a") == "../srv/a";
    var cs := Components("../srv/a");
    assert cs[0] == ParentDir;
    assert cs[..1] == [ParentDir] && [ParentDir][1..] == [];
    assert 0 + Depth(cs[..1]) < 0;
  }

  // ------------------------------------------------------------------------------------------------
  // Validating a returned path again.

  function Join(names: seq<string>): string {
    if names == [] then "" else if |names| == 1 then names[0] else names[0] + ['/'] + Join(names[1..])
  }

  function Normals(names: seq<string>): seq<Component> {
    seq(|names|, i requires 0 <= i < |names| => Normal(names[i]))
  }

  ghost predicate ValidNames(names: seq<string>) {
    forall i :: 0 <= i < |names| ==> ValidName(names[i])
  }

  lemma {:induction false} SplitJoin(names: seq<string>, first: bool)
    requires ValidNames(names)
    ensures SegmentComponents(Split(Join(names), '/'), first) == Normals(names)
    ensures '\0' !in Join(names) && TrimSlashes(Join(names)) == Join(names)
    decreases |names|
  {
    if names == [] {
      assert [""][1..] == [];
    } else {
      var name, rest := names[0], names[1..];
      assert ValidName(name);
      if |names| == 1 {
        SplitWithout(name, '/');
        assert [name][1..] == [] && Normals(names) == [Normal(name)];
      } else {
        SplitJoin(rest, false);
        SplitFirst(name, Join(rest), '/');
        assert ([name] + Split(Join(rest), '/'))[1..] == Split(Join(rest), '/');
        assert Normals(names) == [Normal(name)] + Normals(rest);
      }
      assert Join(names)[0] == name[0];
    }
  }

  lemma {:induction false} NormalsAreNormal(names: seq<string>)
    ensures StaysInside(Normals(names), 0) && NormalForm(Normals(names)) == names
    decreases |names|
  {
    forall i | 0 <= i <= |names| ensures 0 <= 0 + Depth(Normals(names)[..i]) {
      NamesGoDown(Normals(names)[..i]);
    }
    if names != [] {
      var n := |names| - 1;
      NormalsAreNormal(names[..n]);
      assert Normals(names)[..n] == Normals(names[..n]) && names == names[..n] + [names[n]];
    }
  }

  lemma {:induction false} NamesGoDown(components: seq<Component>)
    requires forall i :: 0 <= i < |components| ==> components[i].Normal?
    ensures 0 <= Depth(components)
  {
    if components != [] {
      NamesGoDown(components[1..]);
    }
  }

  /** The path of valid names relative to the root is accepted and names what it says. */
  lemma RelativeRoundTrip(fs: Tree, root: Path, names: seq<string>)
    requires ValidNames(names)
    ensures ValidateIn(fs, root, Join(names)) == Ok(root + names)
  {
    SplitJoin(names, true);
    NormalsAreNormal(names);
    TrimmedIsRelative(Join(names));
    assert Components(Join(names)) == Normals(names);
    MissingTargetAccepted(root, Join(names));
    if Look(fs, root, Join(names)).Resolved? {
      BranchesAgree(fs, root, Join(names));
    }
  }

  lemma {:induction false} SplitParts(s: string, i: nat)
    requires '\0' !in s && i < |Split(s, '/')|
    ensures '/' !in Split(s, '/')[i] && '\0' !in Split(s, '/')[i]
    decreases |s|
  {
    if s != "" {
      if s[0] == '/' {
        if i > 0 { SplitParts(s[1..], i - 1); }
      } else {
        SplitParts(s[1..], i);
      }
    }
  }

  lemma {:induction false} SegmentNames(segments: seq<string>, first: bool)
    requires forall i :: 0 <= i < |segments| ==> '/' !in segments[i] && '\0' !in segments[i]
    ensures forall c :: c in SegmentComponents(segments, first) && c.Normal? ==> ValidName(c.name)
  {
    if segments != [] {
      SegmentNames(segments[1..], false);
    }
  }

  lemma {:induction false} NormalFormNames(components: seq<Component>, skip: nat)
    requires forall c :: c in components && c.Normal? ==> ValidName(c.name)
    ensures ValidNames(FromRight(components, skip))
    decreases |components|
  {
    if components != [] {
      var n := |components| - 1;
      assert components[n] in components;
      match components[n] {
        case ParentDir => NormalFormNames(components[..n], skip + 1);
        case Normal(_) => NormalFormNames(components[..n], if skip > 0 then skip - 1 else 0);
        case _ => NormalFormNames(components[..n], skip);
      }
    }
  }

  lemma {:induction false} ResolveFinds(fs: Tree, at: Path, segments: seq<string>)
    requires WellFormed(fs) && at in fs.dirs + fs.files && Resolve(fs, at, segments).Some?
    ensures Resolve(fs, at, segments).value in fs.dirs + fs.files
    decreases |segments|
  {
    if segments != [] {
      if segments[0] == "" || segments[0] == "." {
        ResolveFinds(fs, at, segments[1..]);
      } else if segments[0] == ".." {
        ResolveFinds(fs, Pop(at), segments[1..]);
      } else {
        ResolveFinds(fs, at + [segments[0]], segments[1..]);
      }
    }
  }

  /** MAIN RESULT. Validating an accepted path again, relative to the root, is the identity. */
  lemma RevalidationIsIdentity(fs: Tree, root: Path, requested: string)
    requires WellFormed(fs) && root in fs.dirs + fs.files && ValidateIn(fs, root, requested).Ok?
    ensures var p := ValidateIn(fs, root, requested).value;
      root <= p && ValidateIn(fs, root, Join(p[|root|..])) == Ok(p)
  {
    var p := ValidateIn(fs, root, requested).value;
    var clean := TrimSlashes(requested);
    AcceptedStaysBelowRoot(root, requested, Look(fs, root, requested));
    TrimmedIsRelative(requested);
    var names := p[|root|..];
    assert ValidNames(names) by {
      if Look(fs, root, requested).Resolved? {
        ResolveFinds(fs, root, Split(clean, '/'));
      } else {
        MissingTargetAccepted(root, requested);
        TrimKeepsText(requested);
        forall i | 0 <= i < |Split(clean, '/')| ensures '/' !in Split(clean, '/')[i] && '\0' !in Split(clean, '/')[i] {
          SplitParts(clean, i);
        }
        SegmentNames(Split(clean, '/'), true);
        NormalFormNames(Components(clean), 0);
        assert names == NormalForm(Components(clean));
      }
    }
    RelativeRoundTrip(fs, root, names);
    assert root + names == p;
  }

  lemma {:induction false} TrimKeepsText(s: string)
    requires '\0' !in s
    ensures '\0' !in TrimSlashes(s)
  {
    if s != "" && s[0] == '/' {
      TrimKeepsText(s[1..]);
    }
  }

  // ------------------------------------------------------------------------------------------------
  // Requests as text.

  lemma LeadingSlashIsIgnored(root: Option<Path>, requested: string, probe: Probe)
    ensures Validate(root, "/" + requested, probe) == Validate(root, requested, probe)
  {
    var slashed := "/" + requested;
    assert slashed[0] == '/' && slashed[1..] == requested;
    TrimmedIsRelative(requested);
  }

  function Repeat<T>(x: T, n: nat): seq<T> {
    if n == 0 then [] else [x] + Repeat(x, n - 1)
  }

  /** `k` times `..`, each after a slash. */
  function StepsUp(k: nat): string {
    if k == 0 then "" else "/.." + StepsUp(k - 1)
  }

  lemma {:induction false} StepsUpComponents(name: string, k: nat)
    requires '/' !in name
    ensures Split(name + StepsUp(k), '/') == [name] + Repeat("..", k)
    ensures SegmentComponents(Repeat("..", k), false) == Repeat(ParentDir, k)
    decreases k
  {
    var ups := Repeat("..", k);
    if k == 0 {
      SplitWithout(name, '/');
      assert name + StepsUp(0) == name && [name] + ups == [name];
    } else {
      StepsUpComponents("..", k - 1);
      SplitFirst(name, ".." + StepsUp(k - 1), '/');
      assert name + StepsUp(k) == name + ['/'] + (".." + StepsUp(k - 1));
      assert ups[1..] == Repeat("..", k - 1);
    }
  }

  lemma {:induction false} JoinUpComponents(names: seq<string>, k: nat, first: bool)
    requires ValidNames(names) && names != []
    ensures SegmentComponents(Split(Join(names) + StepsUp(k), '/'), first) == Normals(names) + Repeat(ParentDir, k)
    decreases |names|
  {
    var name, rest, ups := names[0], names[1..], Repeat(ParentDir, k);
    assert ValidName(name);
    if |names| == 1 {
      StepsUpComponents(name, k);
      assert ([name] + Repeat("..", k))[1..] == Repeat("..", k) && Join(names) == name;
      assert Normals(names) == [Normal(name)];
    } else {
      JoinUpComponents(rest, k, false);
      var tail := Join(rest) + StepsUp(k);
      assert Join(names) + StepsUp(k) == name + ['/'] + tail;
      SplitFirst(name, tail, '/');
      assert ([name] + Split(tail, '/'))[1..] == Split(tail, '/');
      assert Normals(names) + ups == [Normal(name)] + (Normals(rest) + ups);
    }
  }

  lemma JoinUpIsTrimmed(names: seq<string>, k: nat)
    requires ValidNames(names) && names != []
    ensures var text := Join(names) + StepsUp(k); '\0' !in text && TrimSlashes(text) == text && text[0] != '/'
  {
    StepsUpText(k);
    SplitJoin(names, true);
    assert ValidName(names[0]);
    assert (Join(names) + StepsUp(k))[0] == names[0][0];
  }

  lemma {:induction false} StepsUpText(k: nat)
    ensures '\0' !in StepsUp(k)
  {
    if k > 0 {
      StepsUpText(k - 1);
    }
  }

  lemma {:induction false} WalkUp(root: Path, names: seq<string>, k: nat)
    ensures Walk(root, root + names, Repeat(ParentDir, k))
         == if k <= |names| then Ok(root + names[..|names| - k]) else Err(AtRoot)
    decreases k
  {
    var n := |names|;
    if k == 0 {
      assert names[..n] == names;
    } else if n > 0 {
      var ups, up := Repeat(ParentDir, k), names[..n - 1];
      assert ups[1..] == Repeat(ParentDir, k - 1);
      assert Pop(root + names) == root + up && root + names != root;
      WalkUp(root, up, k - 1);
      assert k <= n ==> up[..n - 1 - (k - 1)] == names[..n - k];
    } else {
      assert root + names == root;
    }
  }

  lemma {:induction false} WalkDown(root: Path, at: Path, names: seq<string>)
    ensures Walk(root, at, Normals(names)) == Ok(at + names)
    decreases |names|
  {
    if names == [] {
      assert at + names == at;
    } else {
      assert Normals(names)[1..] == Normals(names[1..]);
      WalkDown(root, at + [names[0]], names[1..]);
      assert at + [names[0]] + names[1..] == at + names;
    }
  }

  /** Names followed by `..` repeated k times, as text: each `..` takes one name back, and one more than there are
      names is refused. */
  lemma EachParentTakesOneBack(root: Path, names: seq<string>, k: nat)
    requires ValidNames(names) && names != []
    ensures Validate(Some(root), Join(names) + StepsUp(k), Missing)
         == if k <= |names| then Ok(root + names[..|names| - k]) else Err(AtRoot)
  {
    var text := Join(names) + StepsUp(k);
    JoinUpComponents(names, k, true);
    JoinUpIsTrimmed(names, k);
    assert Components(text) == Normals(names) + Repeat(ParentDir, k);
    WalkConcat(root, root, Normals(names), Repeat(ParentDir, k));
    WalkDown(root, root, names);
    WalkUp(root, names, k);
  }

  // ------------------------------------------------------------------------------------------------
  // A file system with symbolic links.

  datatype LinkedTree = LinkedTree(tree: Tree, links: map<Path, string>)

  ghost predicate LinkedWellFormed(fs: LinkedTree) {
    WellFormed(fs.tree) && forall p :: p in fs.tree.dirs + fs.tree.files ==> p !in fs.links
  }

  /** Resolution that follows links, at most `hops` of them. */
  function Follow(fs: LinkedTree, hops: nat, at: Path, segments: seq<string>): Option<Path>
    decreases hops, |segments|
  {
    if segments == [] then Some(at)
    else if at !in fs.tree.dirs then None
    else
      var name, rest := segments[0], segments[1..];
      if name == "" || name == "." then Follow(fs, hops, at, rest)
      else if name == ".." then Follow(fs, hops, Pop(at), rest)
      else if at + [name] in fs.links then
        var target := fs.links[at + [name]];
        if hops == 0 then None
        else Follow(fs, hops - 1, if "/" <= target then [] else at, Split(target, '/') + rest)
      else if at + [name] in fs.tree.dirs + fs.tree.files then Follow(fs, hops, at + [name], rest)
      else None
  }

  lemma {:induction false} FollowFinds(fs: LinkedTree, hops: nat, at: Path, segments: seq<string>)
    requires LinkedWellFormed(fs) && at in fs.tree.dirs + fs.tree.files && Follow(fs, hops, at, segments).Some?
    ensures Follow(fs, hops, at, segments).value in fs.tree.dirs + fs.tree.files
    decreases hops, |segments|
  {
    if segments != [] {
      var name, rest := segments[0], segments[1..];
      if name == "" || name == "." {
        FollowFinds(fs, hops, at, rest);
      } else if name == ".." {
        FollowFinds(fs, hops, Pop(at), rest);
      } else if at + [name] in fs.links {
        var target := fs.links[at + [name]];
        TopIsDir(fs.tree, at);
        FollowFinds(fs, hops - 1, if "/" <= target then [] else at, Split(target, '/') + rest);
      } else {
        FollowFinds(fs, hops, at + [name], rest);
      }
    }
  }

  lemma {:induction false} TopIsDir(fs: Tree, p: Path)
    requires WellFormed(fs) && p in fs.dirs
    ensures [] in fs.dirs
    decreases |p|
  {
    if p != [] {
      TopIsDir(fs, Pop(p));
    }
  }

  lemma {:induction false} PrefixIsDir(fs: Tree, p: Path, i: nat)
    requires WellFormed(fs) && p in fs.dirs + fs.files && i < |p|
    ensures p[..i] in fs.dirs && ValidName(p[i])
    decreases |p|
  {
    if i < |p| - 1 {
      PrefixIsDir(fs, Pop(p), i);
      assert Pop(p)[..i] == p[..i] && Pop(p)[i] == p[i];
    }
  }

  /** A path without links leads to itself. */
  lemma {:induction false} RealIsFixed(fs: LinkedTree, hops: nat, p: Path, i: nat)
    requires LinkedWellFormed(fs) && p in fs.tree.dirs + fs.tree.files && i <= |p|
    ensures Follow(fs, hops, p[..i], p[i..]) == Some(p)
    decreases |p| - i
  {
    if i == |p| {
      assert p[..i] == p;
    } else {
      PrefixIsDir(fs.tree, p, i);
      assert p[i..][0] == p[i] && p[i..][1..] == p[i + 1..] && p[..i] + [p[i]] == p[..i + 1];
      assert p[..i + 1] in fs.tree.dirs + fs.tree.files by {
        if i + 1 < |p| {
          PrefixIsDir(fs.tree, p, i + 1);
        } else {
          assert p[..i + 1] == p;
        }
      }
      RealIsFixed(fs, hops, p, i + 1);
    }
  }

  /** MAIN RESULT. Whatever links there are: an existing target is accepted exactly when the file it leads to lies at
      or below the root. The returned path is where the request led, it is free of links, and following it leads to
      itself. */
  lemma AcceptedLeadsBelowRoot(fs: LinkedTree, hops: nat, hops': nat, root: Path, requested: string, reached: Path)
    requires LinkedWellFormed(fs) && root in fs.tree.dirs + fs.tree.files && '\0' !in requested
    requires Follow(fs, hops, root, Split(TrimSlashes(requested), '/')) == Some(reached)
    ensures var r := Validate(Some(root), requested, Resolved(reached));
      && (r.Ok? <==> root <= reached)
      && (r.Ok? ==> r.value == reached && Follow(fs, hops', [], r.value) == Some(reached))
      && (r.Err? ==> r.error == ResolvesOutside)
  {
    TrimmedIsRelative(requested);
    FollowFinds(fs, hops, root, Split(TrimSlashes(requested), '/'));
    RealIsFixed(fs, hops', reached, 0);
    assert reached[..0] == [] && reached[0..] == reached;
  }
}
