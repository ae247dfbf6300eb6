/** Archive path spellings and the components the resolver iterates over
    (Unix separators).  Splitting a spelling on `/` is a bijection between
    strings and non-empty segment lists, so a raw path is such a list. */
module ArchivePaths {

  type Name = string

  datatype Segment = Empty | Dot | DotDot | Named(name: Name)

  type RawPath = raw: seq<Segment> | |raw| >= 1 witness [Empty]

  datatype Component = RootDir | CurDir | ParentDir | Normal(name: Name)

  /** A resolved path below the destination: ordinary names only. */
  type Path = seq<Name>

  function Parent(p: Path): Path
    requires p != []
  {
    p[..|p| - 1]
  }

  predicate IsAbsolute(raw: RawPath) {
    |raw| >= 2 && raw[0].Empty?
  }

  /** The components of a run of segments: empty and `.` segments vanish. */
  function Body(segments: seq<Segment>): seq<Component> {
    if segments == [] then []
    else
      match segments[0]
      case Empty => Body(segments[1..])
      case Dot => Body(segments[1..])
      case DotDot => [ParentDir] + Body(segments[1..])
      case Named(name) => [Normal(name)] + Body(segments[1..])
  }

  /** What `Path::components` yields: `.` survives only as the very first
      segment of a relative path. */
  function Components(raw: RawPath): seq<Component> {
    if IsAbsolute(raw) then [RootDir] + Body(raw)
    else if raw[0].Dot? then [CurDir] + Body(raw)
    else Body(raw)
  }

  /** A spelling ending in `/` or `/.` must name a directory. */
  predicate RequiresDirectory(raw: RawPath) {
    |raw| >= 2 && (raw[|raw| - 1].Empty? || raw[|raw| - 1].Dot?)
  }

  function Names(p: Path): (segments: seq<Segment>)
    ensures |segments| == |p|
    ensures forall i :: 0 <= i < |p| ==> segments[i] == Named(p[i])
  {
    if p == [] then [] else [Named(p[0])] + Names(p[1..])
  }

  function Normals(p: Path): (components: seq<Component>)
    ensures |components| == |p|
    ensures forall i :: 0 <= i < |p| ==> components[i] == Normal(p[i])
  {
    if p == [] then [] else [Normal(p[0])] + Normals(p[1..])
  }

  /** `Path::join` of a resolved directory with a link target. */
  function Join(parent: Path, target: RawPath): RawPath {
    if IsAbsolute(target) || parent == [] then target else Names(parent) + target
  }

  predicate IsNoise(s: Segment) {
    s.Empty? || s.Dot?
  }

  predicate Spells(s: Segment, c: Component) {
    match s
    case DotDot => c == ParentDir
    case Named(name) => c == Normal(name)
    case _ => false
  }

  /** A spelling of names and `..` only is its components, one for one. */
  lemma {:induction false} PlainSpellings(segments: seq<Segment>)
    requires forall i :: 0 <= i < |segments| ==> !IsNoise(segments[i])
    ensures |Body(segments)| == |segments|
    ensures forall i :: 0 <= i < |segments| ==> Spells(segments[i], Body(segments)[i])
    ensures segments != [] ==> Components(segments) == Body(segments)
    decreases |segments|
  {
    if segments != [] {
      PlainSpellings(segments[1..]);
    }
  }

  /** Empty and `.` segments vanish wherever they stand, except that an empty
      first one marks the root and a first `.` the current directory. */
  lemma NoiseVanishes(left: seq<Segment>, noise: Segment, right: seq<Segment>)
    requires IsNoise(noise)
    ensures Body(left + [noise] + right) == Body(left) + Body(right)
    ensures right != [] && noise == Empty ==> Components([noise] + right) == [RootDir] + Body(right)
    ensures noise == Dot ==> Components([noise] + right) == [CurDir] + Body(right)
    ensures Components([Empty]) == []
  {
    BodyOfConcatenation(left + [noise], right);
    BodyOfConcatenation(left, [noise]);
    BodyOfConcatenation([noise], right);
    assert Body([noise]) == [] by { assert [noise][1..] == []; }
    assert Body([Empty]) == [] by { assert [Empty][1..] == []; }
    assert Body(left) + [] == Body(left) && [] + Body(right) == Body(right);
  }

  /** The names of a spelling, in order. */
  function NamesIn(segments: seq<Segment>): Path {
    if segments == [] then []
    else (if segments[0].Named? then [segments[0].name] else []) + NamesIn(segments[1..])
  }

  lemma {:induction false} BodyOfConcatenation(left: seq<Segment>, right: seq<Segment>)
    ensures Body(left + right) == Body(left) + Body(right)
  {
    if left == [] {
      assert left + right == right;
    } else {
      assert (left + right)[1..] == left[1..] + right;
      BodyOfConcatenation(left[1..], right);
    }
  }

  lemma {:induction false} BodyOfNames(p: Path)
    ensures Body(Names(p)) == Normals(p)
  {
    if p != [] {
      assert Names(p)[1..] == Names(p[1..]);
      BodyOfNames(p[1..]);
    }
  }

  /** Joining under a real directory re-walks its names and then the target's
      components, a leading `.` of which no longer shows. */
  lemma JoinComponents(parent: Path, target: RawPath)
    requires parent != [] && !IsAbsolute(target)
    ensures Components(Join(parent, target)) == Normals(parent) + Body(target)
    ensures target[0].Dot? ==> Components(target) == [CurDir] + Body(target)
    ensures !target[0].Dot? ==> Components(target) == Body(target)
  {
    BodyOfConcatenation(Names(parent), target);
    BodyOfNames(parent);
    var joined := Names(parent) + target;
    assert joined[0] == Named(parent[0]);
  }

  /** Joining only adds the directory requirement when the target is a lone
      `.` or empty, which name the parent itself. */
  lemma JoinRequiresDirectory(parent: Path, target: RawPath)
    requires parent != [] && !IsAbsolute(target)
    ensures RequiresDirectory(Join(parent, target)) && !RequiresDirectory(target) ==> Body(target) == []
    ensures RequiresDirectory(target) ==> RequiresDirectory(Join(parent, target))
  {
    var joined := Names(parent) + target;
    assert joined[|joined| - 1] == target[|target| - 1];
    if |target| == 1 && (target[0].Empty? || target[0].Dot?) {
      assert Body(target[1..]) == [];
    }
  }

  lemma {:induction false} BodyIsPlain(segments: seq<Segment>)
    ensures forall c :: c in Body(segments) ==> c.ParentDir? || c.Normal?
  {
    if segments != [] {
      BodyIsPlain(segments[1..]);
    }
  }

  lemma NormalsOfChild(parent: Path, name: Name)
    ensures Normals(parent + [name]) == Normals(parent) + [Normal(name)]
  {
  }

  /** An entry's own path, spelled out, is exactly its names. */
  lemma ComponentsOfNames(p: Path)
    requires p != []
    ensures Components(Names(p)) == Normals(p) && !RequiresDirectory(Names(p)) && !IsAbsolute(Names(p))
  {
    BodyOfNames(p);
    assert Names(p)[0] == Named(p[0]) && Names(p)[|p| - 1] == Named(p[|p| - 1]);
  }
}
