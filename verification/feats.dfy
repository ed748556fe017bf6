/** The two records of the feat file: a prerequisite (`Dependency`) and a
    feat (`Feat`), with the two derived views the rest of the program reads,
    the displayed full name and the list of prerequisite feats. */
module Feats {
  import opened Results

  /** One prerequisite: a free-form kind ("Feat", "Ability", "BAB",
      "Epic:", ...) and the name it refers to. */
  datatype Dependency = Dependency(kind: string, target: string)

  /** One parsed record. `deps` must all hold (NEEDSALL), any one of
      `orDeps` suffices (NEEDSONE). A missing name or heading is None, as
      featgraph leaves those attributes at Python's None. */
  datatype Feat = Feat(
    name: Option<string>,
    parentHeading: Option<string>,
    deps: seq<Dependency>,
    orDeps: seq<Dependency>,
    automatic: bool)

  /** The record the parser starts from. */
  const EmptyFeat := Feat(None, None, [], [], false)

  /** How Python's `str.format` renders an optional name: None becomes "None". */
  function NameText(name: Option<string>): string {
    match name
    case None => "None"
    case Some(n) => n
  }

  /** The displayed name: the heading and the name joined by ": " when
      there is a heading, the bare (possibly absent) name otherwise. */
  function FullName(f: Feat): Option<string> {
    match f.parentHeading
    case None => f.name
    case Some(p) => Some(p + ": " + NameText(f.name))
  }

  /** With a heading, the full name starts with the heading and ": " and
      ends with the name; without one it is the name itself. */
  lemma FullNameShape(f: Feat)
    ensures f.parentHeading.None? ==> FullName(f) == f.name
    ensures f.parentHeading.Some? ==>
      var p := f.parentHeading.value;
      var n := NameText(f.name);
      && FullName(f).Some?
      && |FullName(f).value| == |p| + 2 + |n|
      && FullName(f).value[..|p|] == p
      && FullName(f).value[|p|..|p| + 2] == ": "
      && FullName(f).value[|p| + 2..] == n
  {
  }

  /** Two feats under the same heading with present names have the same
      full name only when they have the same name: the name can be read
      back from the full name. */
  lemma FullNameInjective(f: Feat, g: Feat)
    requires f.parentHeading == g.parentHeading
    requires f.name.Some? && g.name.Some?
    requires FullName(f) == FullName(g)
    ensures f.name == g.name
  {
    if f.parentHeading.Some? {
      var p := f.parentHeading.value;
      FullNameShape(f);
      FullNameShape(g);
      assert f.name.value == FullName(f).value[|p| + 2..];
    }
  }

  /** The targets of the dependencies whose kind is exactly "Feat", in order. */
  function FeatTargets(ds: seq<Dependency>): (r: seq<string>)
    ensures |r| <= |ds|
    ensures forall t :: t in r <==> exists d :: d in ds && d.kind == "Feat" && d.target == t
  {
    if ds == [] then []
    else if ds[0].kind == "Feat" then [ds[0].target] + FeatTargets(ds[1..])
    else FeatTargets(ds[1..])
  }

  /** `Feat.feat_deps`: the required prerequisites that are feats. */
  function FeatDeps(f: Feat): seq<string> {
    FeatTargets(f.deps)
  }

  /** Filtering distributes over concatenation, so the order of the kept
      targets is the order of the dependencies. */
  lemma {:induction false} FeatTargetsAppend(a: seq<Dependency>, b: seq<Dependency>)
    ensures FeatTargets(a + b) == FeatTargets(a) + FeatTargets(b)
    decreases |a|
  {
    if a == [] {
      assert a + b == b;
    } else {
      assert (a + b)[0] == a[0];
      assert (a + b)[1..] == a[1..] + b;
      FeatTargetsAppend(a[1..], b);
    }
  }

  /** When every dependency is a feat, nothing is dropped: the result is the
      list of targets. */
  lemma {:induction false} FeatTargetsAllFeats(ds: seq<Dependency>)
    requires forall i :: 0 <= i < |ds| ==> ds[i].kind == "Feat"
    ensures |FeatTargets(ds)| == |ds|
    ensures forall i :: 0 <= i < |ds| ==> FeatTargets(ds)[i] == ds[i].target
    decreases |ds|
  {
    if ds != [] {
      FeatTargetsAllFeats(ds[1..]);
    }
  }

  /** When no dependency is a feat, the result is empty. */
  lemma {:induction false} FeatTargetsNoFeats(ds: seq<Dependency>)
    requires forall i :: 0 <= i < |ds| ==> ds[i].kind != "Feat"
    ensures FeatTargets(ds) == []
    decreases |ds|
  {
    if ds != [] {
      FeatTargetsNoFeats(ds[1..]);
    }
  }
}
