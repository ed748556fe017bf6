/** The dependency graph: for each feat, one edge per required prerequisite
    and one edge from a combined "One of:" node for its alternatives, all
    pointing at the feat's full name, and the set of nodes drawn as
    rectangles. The drawing library itself is not modelled; the model
    computes what is handed to it. */
module FeatGraph {
  import opened Results
  import opened Text
  import opened Feats

  /** An edge from a node label to a feat's full name (which is absent when
      the feat has neither name nor heading). */
  datatype Edge = Edge(source: string, target: Option<string>)

  /** The kinds whose prerequisites are labelled with the bare target. */
  predicate IsBareKind(kind: string) {
    kind in {"Feat", "Epic:", "Ability", "Class", "Race"}
  }

  /** The kinds whose targets are drawn as rectangles. */
  predicate IsFeatKind(kind: string) {
    kind in {"Feat", "Epic:"}
  }

  /** The node label of one prerequisite: the bare target for the kinds
      above, and otherwise the kind glued to the target with nothing in
      between ("BAB" and "6" give "BAB6"). */
  function Label(d: Dependency): string {
    if IsBareKind(d.kind) then d.target else d.kind + d.target
  }

  /** A label ends with the target; what comes before it is nothing for the
      bare kinds and exactly the kind otherwise. */
  lemma LabelShape(d: Dependency)
    ensures var r := Label(d);
      && |r| >= |d.target|
      && r[|r| - |d.target|..] == d.target
      && r[..|r| - |d.target|] == (if IsBareKind(d.kind) then "" else d.kind)
  {
  }

  /** Under one kind, the label tells the target: two prerequisites of the
      same kind share a node exactly when they name the same target. */
  lemma LabelInjective(kind: string, t1: string, t2: string)
    ensures Label(Dependency(kind, t1)) == Label(Dependency(kind, t2)) <==> t1 == t2
  {
    if Label(Dependency(kind, t1)) == Label(Dependency(kind, t2)) {
      LabelShape(Dependency(kind, t1));
      LabelShape(Dependency(kind, t2));
    }
  }

  /** The bare kinds all label a target alike, so a Feat and a Class
      prerequisite on the same target meet in one node; any other non-empty
      kind keeps its target apart from that node, and its label starts with
      the kind. */
  lemma LabelKindDistinct(d: Dependency, e: Dependency)
    requires d.target == e.target
    ensures IsBareKind(d.kind) && IsBareKind(e.kind) ==> Label(d) == Label(e)
    ensures !IsBareKind(d.kind) && d.kind != [] && IsBareKind(e.kind) ==>
      Label(d) != Label(e) && Label(d)[..|d.kind|] == d.kind
  {
    if !IsBareKind(d.kind) {
      assert Label(d)[..|d.kind|] == d.kind;
    }
  }

  /** The labels of a list of prerequisites, in order. */
  function Labels(ds: seq<Dependency>): (r: seq<string>)
    ensures |r| == |ds|
    ensures forall i :: 0 <= i < |ds| ==> r[i] == Label(ds[i])
    decreases |ds|
  {
    if ds == [] then [] else Labels(ds[..|ds| - 1]) + [Label(ds[|ds| - 1])]
  }

  /** The first line of the combined node. */
  const OneOfHeader := "One of:"

  /** The text of the combined node for the alternatives: "One of:" and
      then every label, each line ended by a line feed. */
  function OneOfLabel(ds: seq<Dependency>): string {
    OneOfHeader + "\n" + Terminated(Labels(ds))
  }

  /** The first line of the combined label holds no line break. */
  lemma HeaderHasNoLineBreak()
    ensures NoLineBreak(OneOfHeader)
  {
  }

  /** A first line and further lines, none with a line break, make a list
      of lines none of which has a line break. */
  lemma ConsUnbroken(h: string, ls: seq<string>)
    requires NoLineBreak(h)
    requires forall i :: 0 <= i < |ls| ==> NoLineBreak(ls[i])
    ensures forall k :: 0 <= k < |ls| + 1 ==> NoLineBreak(([h] + ls)[k])
  {
    var lines := [h] + ls;
    assert forall k :: 1 <= k < |lines| ==> lines[k] == ls[k - 1];
  }

  /** A header line followed by terminated lines splits back into the
      header and those lines. */
  lemma HeaderLines(h: string, ls: seq<string>)
    requires NoLineBreak(h)
    requires forall i :: 0 <= i < |ls| ==> NoLineBreak(ls[i])
    ensures SplitLines(h + "\n" + Terminated(ls)) == [h] + ls
  {
    var lines := [h] + ls;
    assert lines[1..] == ls;
    assert Terminated(lines) == h + "\n" + Terminated(ls);
    ConsUnbroken(h, ls);
    SplitLinesTerminated(lines);
  }

  /** The combined label read line by line is "One of:" followed by the
      labels, when no label holds a line break itself. */
  lemma OneOfLabelLines(ds: seq<Dependency>)
    requires forall i :: 0 <= i < |ds| ==> NoLineBreak(Label(ds[i]))
    ensures SplitLines(OneOfLabel(ds)) == [OneOfHeader] + Labels(ds)
  {
    var labels := Labels(ds);
    assert forall i :: 0 <= i < |labels| ==> NoLineBreak(labels[i]);
    HeaderHasNoLineBreak();
    HeaderLines(OneOfHeader, labels);
  }

  /** The combined label always ends in a line feed, so removing trailing
      commas from it changes nothing. */
  lemma OneOfLabelCommaStripNoOp(ds: seq<Dependency>)
    ensures RStripChar(OneOfLabel(ds), ',') == OneOfLabel(ds)
  {
    var s := OneOfLabel(ds);
    if ds == [] {
      assert s == OneOfHeader + "\n";
    } else {
      var n := |ds|;
      assert Labels(ds) == Labels(ds[..n - 1]) + [Label(ds[n - 1])];
      TerminatedSnoc(Labels(ds[..n - 1]), Label(ds[n - 1]));
    }
    assert s[|s| - 1] == '\n';
    RStripCharNoOp(s, ',');
  }

  /** The edges of one required prerequisite list, all into `name`. */
  function RequiredEdges(ds: seq<Dependency>, name: Option<string>): (r: seq<Edge>)
    ensures |r| == |ds|
    ensures forall i :: 0 <= i < |ds| ==> r[i] == Edge(Label(ds[i]), name)
    decreases |ds|
  {
    if ds == [] then [] else RequiredEdges(ds[..|ds| - 1], name) + [Edge(Label(ds[|ds| - 1]), name)]
  }

  /** The edges of one feat: one per required prerequisite and one more for
      any alternatives, each into the feat's full name; the required ones
      come first, in order, labelled as `Label` says, and the last is the
      combined node. */
  function FeatEdges(f: Feat): (r: seq<Edge>)
    ensures |r| == |f.deps| + (if f.orDeps == [] then 0 else 1)
    ensures forall i :: 0 <= i < |r| ==> r[i].target == FullName(f)
    ensures forall i :: 0 <= i < |f.deps| ==> r[i].source == Label(f.deps[i])
    ensures f.orDeps != [] ==> r[|r| - 1].source == OneOfLabel(f.orDeps)
  {
    RequiredEdges(f.deps, FullName(f))
    + (if f.orDeps == [] then [] else [Edge(OneOfLabel(f.orDeps), FullName(f))])
  }

  /** The edges of all feats, feat by feat. */
  function Edges(feats: seq<Feat>): seq<Edge>
    decreases |feats|
  {
    if feats == [] then [] else Edges(feats[..|feats| - 1]) + FeatEdges(feats[|feats| - 1])
  }

  /** The targets of the feat-kind prerequisites among `ds`. */
  function TargetRectangles(ds: seq<Dependency>): set<Option<string>> {
    set d | d in ds && IsFeatKind(d.kind) :: Some(d.target)
  }

  /** The nodes a feat asks to be drawn as rectangles: its own full name
      when it has any prerequisite, the targets of its feat-kind
      prerequisites, and its combined node. */
  function FeatRectangles(f: Feat): set<Option<string>> {
    (if f.deps == [] && f.orDeps == [] then {} else {FullName(f)})
    + TargetRectangles(f.deps)
    + (if f.orDeps == [] then {} else {Some(OneOfLabel(f.orDeps))})
  }

  /** The rectangle nodes of all feats. */
  function Rectangles(feats: seq<Feat>): set<Option<string>>
    decreases |feats|
  {
    if feats == [] then {} else Rectangles(feats[..|feats| - 1]) + FeatRectangles(feats[|feats| - 1])
  }

  /** Every prerequisite feat of a feat (`feat_deps`) is the source of an
      edge into it. */
  lemma FeatDepsAreEdgeSources(f: Feat)
    ensures forall t :: t in FeatDeps(f) ==> Edge(t, FullName(f)) in FeatEdges(f)
  {
    forall t | t in FeatDeps(f)
      ensures Edge(t, FullName(f)) in FeatEdges(f)
    {
      var d :| d in f.deps && d.kind == "Feat" && d.target == t;
      var i :| 0 <= i < |f.deps| && f.deps[i] == d;
      assert FeatEdges(f)[i] == Edge(t, FullName(f));
    }
  }

  /** Every edge points at the full name of some feat. */
  lemma {:induction false} EdgeTargetsAreFeats(feats: seq<Feat>)
    ensures forall e :: e in Edges(feats) ==> exists f :: f in feats && e.target == FullName(f)
    decreases |feats|
  {
    if feats != [] {
      var init := feats[..|feats| - 1];
      var last := feats[|feats| - 1];
      EdgeTargetsAreFeats(init);
      forall e | e in Edges(feats)
        ensures exists f :: f in feats && e.target == FullName(f)
      {
        if e in Edges(init) {
          var f :| f in init && e.target == FullName(f);
          assert f in feats;
        } else {
          assert e in FeatEdges(last);
          var i :| 0 <= i < |FeatEdges(last)| && FeatEdges(last)[i] == e;
          assert last in feats;
        }
      }
    }
  }

  /** A feat with any prerequisite is drawn as a rectangle, and so are
      its prerequisite feats and its combined node. */
  lemma FeatRectanglesHold(f: Feat)
    ensures f.deps != [] || f.orDeps != [] ==> FullName(f) in FeatRectangles(f)
    ensures forall t :: t in FeatDeps(f) ==> Some(t) in FeatRectangles(f)
    ensures f.orDeps != [] ==> Some(OneOfLabel(f.orDeps)) in FeatRectangles(f)
    ensures forall r :: r in FeatRectangles(f) ==>
      || r == FullName(f)
      || (exists d :: d in f.deps && IsFeatKind(d.kind) && r == Some(d.target))
      || (f.orDeps != [] && r == Some(OneOfLabel(f.orDeps)))
  {
    forall t | t in FeatDeps(f)
      ensures Some(t) in FeatRectangles(f)
    {
      var d :| d in f.deps && d.kind == "Feat" && d.target == t;
      assert IsFeatKind(d.kind);
    }
  }

  /** The rectangles of all feats are exactly those some feat asks for. */
  lemma {:induction false} RectanglesOfFeats(feats: seq<Feat>)
    ensures forall r :: r in Rectangles(feats) <==> exists f :: f in feats && r in FeatRectangles(f)
    decreases |feats|
  {
    if feats != [] {
      var init := feats[..|feats| - 1];
      var last := feats[|feats| - 1];
      RectanglesOfFeats(init);
      forall r | r in Rectangles(feats)
        ensures exists f :: f in feats && r in FeatRectangles(f)
      {
        if r in Rectangles(init) {
          var f :| f in init && r in FeatRectangles(f);
          assert f in feats;
        } else {
          assert last in feats;
        }
      }
      forall r | exists f :: f in feats && r in FeatRectangles(f)
        ensures r in Rectangles(feats)
      {
        var f :| f in feats && r in FeatRectangles(f);
        var i :| 0 <= i < |feats| && feats[i] == f;
        if i < |feats| - 1 {
          assert init[i] == f;
        }
      }
    }
  }

  /** The graph loop over the feats: edges in the order they are added and
      the set of nodes asked to be drawn as rectangles. */
  method BuildGraph(feats: seq<Feat>) returns (edges: seq<Edge>, rectangles: set<Option<string>>)
    ensures edges == Edges(feats)
    ensures rectangles == Rectangles(feats)
  {
    edges := [];
    rectangles := {};
    var k := 0;
    while k < |feats|
      invariant 0 <= k <= |feats|
      invariant edges == Edges(feats[..k])
      invariant rectangles == Rectangles(feats[..k])
    {
      var featEdges, featRects := FeatGraphStep(feats[k]);
      assert feats[..k + 1][..k] == feats[..k];
      edges := edges + featEdges;
      rectangles := rectangles + featRects;
      k := k + 1;
    }
    assert feats[..k] == feats;
  }

  /** The body of the graph loop for one feat. */
  method FeatGraphStep(f: Feat) returns (edges: seq<Edge>, rectangles: set<Option<string>>)
    ensures edges == FeatEdges(f)
    ensures rectangles == FeatRectangles(f)
  {
    var name := FullName(f);
    rectangles := {};
    if |f.deps| > 0 || |f.orDeps| > 0 {
      rectangles := rectangles + {name};
    }
    var targets;
    edges, targets := RequiredStep(f.deps, name);
    rectangles := rectangles + targets;
    if |f.orDeps| > 0 {
      var text := OneOfText(f.orDeps);
      text := RStripChar(text, ',');
      OneOfLabelCommaStripNoOp(f.orDeps);
      rectangles := rectangles + {Some(text)};
      edges := edges + [Edge(text, name)];
    }
  }

  /** The loop over the required prerequisites of a feat named `name`: one
      edge each, and the feat-kind targets as rectangles. */
  method RequiredStep(deps: seq<Dependency>, name: Option<string>)
    returns (edges: seq<Edge>, targets: set<Option<string>>)
    ensures edges == RequiredEdges(deps, name)
    ensures targets == TargetRectangles(deps)
  {
    edges := [];
    targets := {};
    var j := 0;
    while j < |deps|
      invariant 0 <= j <= |deps|
      invariant edges == RequiredEdges(deps[..j], name)
      invariant targets == TargetRectangles(deps[..j])
    {
      var d := deps[j];
      RequiredPrefix(deps, j, name);
      if IsFeatKind(d.kind) {
        targets := targets + {Some(d.target)};
      }
      edges := edges + [Edge(Label(d), name)];
      j := j + 1;
    }
    assert deps[..j] == deps;
  }

  /** The prefix of one more prerequisite has one more edge and, for a
      feat kind, one more target. */
  lemma RequiredPrefix(deps: seq<Dependency>, j: nat, name: Option<string>)
    requires j < |deps|
    ensures RequiredEdges(deps[..j + 1], name) == RequiredEdges(deps[..j], name) + [Edge(Label(deps[j]), name)]
    ensures TargetRectangles(deps[..j + 1])
      == TargetRectangles(deps[..j]) + (if IsFeatKind(deps[j].kind) then {Some(deps[j].target)} else {})
  {
    assert deps[..j + 1] == deps[..j] + [deps[j]];
    RequiredEdgesSnoc(deps[..j], deps[j], name);
    FeatKindTargetsSnoc(deps[..j], deps[j]);
  }

  /** One more prerequisite adds one edge at the end. */
  lemma RequiredEdgesSnoc(ds: seq<Dependency>, d: Dependency, name: Option<string>)
    ensures RequiredEdges(ds + [d], name) == RequiredEdges(ds, name) + [Edge(Label(d), name)]
  {
    assert (ds + [d])[..|ds|] == ds;
  }

  /** One more prerequisite adds its target to the feat-kind targets
      exactly when its kind is a feat kind. */
  lemma FeatKindTargetsSnoc(ds: seq<Dependency>, d: Dependency)
    ensures TargetRectangles(ds + [d])
      == TargetRectangles(ds) + (if IsFeatKind(d.kind) then {Some(d.target)} else {})
  {
    assert forall x :: x in ds + [d] <==> x in ds || x == d;
  }

  /** One more alternative adds its label and a line feed to the combined
      label. */
  lemma OneOfLabelSnoc(ds: seq<Dependency>, d: Dependency)
    ensures OneOfLabel(ds + [d]) == OneOfLabel(ds) + Label(d) + "\n"
  {
    assert (ds + [d])[..|ds|] == ds;
    assert Labels(ds + [d]) == Labels(ds) + [Label(d)];
    TerminatedSnoc(Labels(ds), Label(d));
  }

  /** The loop that builds the combined label of the alternatives. */
  method OneOfText(ds: seq<Dependency>) returns (text: string)
    ensures text == OneOfLabel(ds)
  {
    text := OneOfHeader + "\n";
    assert Labels(ds[..0]) == [];
    var i := 0;
    while i < |ds|
      invariant 0 <= i <= |ds|
      invariant text == OneOfLabel(ds[..i])
    {
      var d := ds[i];
      assert ds[..i + 1] == ds[..i] + [d];
      OneOfLabelSnoc(ds[..i], d);
      text := text + Label(d) + "\n";
      i := i + 1;
    }
    assert ds[..i] == ds;
  }
}
