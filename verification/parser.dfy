/** The record parser: one block of `KEY: value;` lines becomes one Feat.

    Each line is trimmed; a line without ':' is skipped; otherwise the text
    before the first ':' is the key and the rest, trimmed and with its
    trailing ';' characters removed, is the value. Five keys change the
    record and every other key is ignored. A prerequisite token without a
    space cannot be split into kind and target; featgraph raises an
    exception there, and the model returns an error. */
module FeatParser {
  import opened Results
  import opened Text
  import opened Feats

  /** The one way parsing fails: a NEEDSALL or NEEDSONE token (trimmed)
      with no space between its kind and its target. */
  datatype ParseError = MissingKindSeparator(token: string)

  const FeatNameKey := "FEATNAME"
  const ParentHeadingKey := "PARENTHEADING"
  const NeedsAllKey := "NEEDSALL"
  const NeedsOneKey := "NEEDSONE"
  const AcquireKey := "ACQUIRE"

  predicate IsRecognisedKey(key: string) {
    key == FeatNameKey || key == ParentHeadingKey || key == NeedsAllKey
    || key == NeedsOneKey || key == AcquireKey
  }

  predicate IsNeedsKey(key: string) {
    key == NeedsAllKey || key == NeedsOneKey
  }

  // ---------------------------------------------------------------------
  // Values

  /** A key and its cleaned value, read from one line. */
  datatype Entry = Entry(key: string, value: string)

  /** A value trimmed of whitespace at both ends and then of every final
      ';': no leading whitespace and no trailing ';' remain, and only ';'
      characters were cut from the trimmed text. Whitespace just before a
      final ';' is kept. */
  function CleanValue(raw: string): (r: string)
    ensures r == [] || (!IsWhitespace(r[0]) && r[|r| - 1] != ';')
    ensures |r| <= |Strip(raw)| && r == Strip(raw)[..|r|]
    ensures forall i :: |r| <= i < |Strip(raw)| ==> Strip(raw)[i] == ';'
  {
    RStripChar(Strip(raw), ';')
  }

  /** The entry of one line, or None when the trimmed line holds no ':'.
      The key is the trimmed line up to its first ':', and the value is
      the rest after that ':', cleaned. */
  function EntryOf(line: string): (r: Option<Entry>)
    ensures r.None? <==> ':' !in line
    ensures r.Some? ==> ':' !in r.value.key
    ensures r.Some? ==>
      exists rest :: Strip(line) == r.value.key + ":" + rest && r.value.value == CleanValue(rest)
  {
    StripKeepsNonWhitespace(line, ':');
    match SplitFirst(Strip(line), ':')
    case None => None
    case Some((key, rest)) => Some(Entry(key, CleanValue(rest)))
  }

  /** Indentation and trailing whitespace around a line do not change its
      entry. */
  lemma EntryOfPadded(w1: string, line: string, w2: string)
    requires AllWhitespace(w1) && AllWhitespace(w2)
    ensures EntryOf(w1 + line + w2) == EntryOf(line)
  {
    StripPadded(w1, line, w2);
  }

  /** A line `k:v` whose key starts with a non-space character reads as key
      `k` and the cleaned `v`; only the first ':' separates, so `v` may
      hold ':' itself. */
  lemma EntryOfKeyValue(k: string, v: string)
    requires ':' !in k
    requires k == [] || !IsWhitespace(k[0])
    ensures EntryOf(k + ":" + v) == Some(Entry(k, CleanValue(v)))
  {
    var rest := StripKeyValue(k, v);
    SplitFirstOf(k, ':', rest);
  }

  /** Trimming `k:v` trims only the end of `v`: what is left after the
      ':' trims to the same text as `v`. */
  lemma StripKeyValue(k: string, v: string) returns (rest: string)
    requires k == [] || !IsWhitespace(k[0])
    ensures Strip(k + ":" + v) == k + ":" + rest
    ensures Strip(rest) == Strip(v)
  {
    var line := k + ":" + v;
    var rv := Strip(v);
    var w1, w2 := StripMargins(v);
    // The stripped line is the key, ':' and the value up to its last
    // non-whitespace character.
    rest := if rv == [] then [] else w1 + rv;
    var tail := if rv == [] then v else w2;
    var mid := k + ":" + rest;
    assert line == [] + mid + tail;
    assert AllWhitespace(tail) by {
      if rv == [] {
        assert v == w1 + w2;
        AllWhitespaceAppend(w1, w2);
      }
    }
    assert mid[0] == (if k == [] then ':' else k[0]);
    assert mid[|mid| - 1] == (if rv == [] then ':' else rv[|rv| - 1]);
    StripUnique([], mid, tail);
    assert Strip(rest) == rv by {
      if rv == [] {
        assert rest == [] + [] + [];
        StripUnique([], [], []);
      } else {
        assert rest == w1 + rv + [];
        StripUnique(w1, rv, []);
      }
    }
  }

  /** A value written the way the feats file writes it, one space after the
      ':' and one ';' at the end, cleans to the text in between. */
  lemma CleanFieldValue(r: string)
    requires r != [] && !IsWhitespace(r[0]) && !IsWhitespace(r[|r| - 1]) && r[|r| - 1] != ';'
    ensures CleanValue(" " + r + ";") == r
  {
    var t := r + ";";
    assert " " + r + ";" == " " + t + [];
    assert AllWhitespace(" ");
    StripUnique(" ", t, []);
    assert t[..|t| - 1] == r;
    RStripCharNoOp(r, ';');
  }

  /** Whitespace between a value and its final ';' survives cleaning:
      trimming runs before the ';' are removed, so " Foo ;" cleans to
      "Foo ". */
  lemma CleanValueKeepsSpaceBeforeSemicolon(r: string)
    requires r != [] && !IsWhitespace(r[0])
    ensures CleanValue(" " + r + " ;") == r + " "
  {
    var t := r + " ;";
    assert " " + r + " ;" == " " + t + [];
    assert AllWhitespace(" ");
    assert t[0] == r[0];
    StripUnique(" ", t, []);
    assert t[..|t| - 1] == r + " ";
    RStripCharNoOp(r + " ", ';');
  }

  /** The line `KEY: value;` reads as the entry of `KEY` and `value`. */
  lemma FieldEntry(k: string, r: string)
    requires ':' !in k && k != [] && !IsWhitespace(k[0])
    requires r != [] && !IsWhitespace(r[0]) && !IsWhitespace(r[|r| - 1]) && r[|r| - 1] != ';'
    ensures EntryOf(k + ": " + r + ";") == Some(Entry(k, r))
  {
    var v := " " + r + ";";
    FieldSpelling(k, r);
    EntryOfKeyValue(k, v);
    CleanFieldValue(r);
  }

  /** `KEY: value;` is the key, ':' and the value text after it. */
  lemma FieldSpelling(k: string, r: string)
    ensures k + ": " + r + ";" == k + ":" + (" " + r + ";")
  {
    assert ": " == ":" + " ";
  }

  // ---------------------------------------------------------------------
  // Prerequisites

  /** A prerequisite token split once at a space and unpacked into kind
      and target: the kind is the text before the first space, the target
      everything after it; a token without a space cannot be unpacked. */
  function ParseDependency(token: string): (r: Result<Dependency, ParseError>)
    ensures r.Err? <==> ' ' !in token
    ensures r.Err? ==> r.error == MissingKindSeparator(token)
    ensures r.Ok? ==> ' ' !in r.value.kind && r.value.kind + " " + r.value.target == token
  {
    match SplitFirst(token, ' ')
    case None => Err(MissingKindSeparator(token))
    case Some((kind, target)) => Ok(Dependency(kind, target))
  }

  /** Writing a dependency as `kind target` and parsing it back gives it back. */
  lemma ParseDependencyOf(kind: string, target: string)
    requires ' ' !in kind
    ensures ParseDependency(kind + " " + target) == Ok(Dependency(kind, target))
  {
    SplitFirstOf(kind, ' ', target);
  }

  /** The loop over `deplist`: parses each (already trimmed) token in
      order, and the first token that fails is the error. */
  function ParseAll(deplist: seq<string>): (r: Result<seq<Dependency>, ParseError>)
    ensures r.Ok? <==> forall i :: 0 <= i < |deplist| ==> ParseDependency(deplist[i]).Ok?
    ensures r.Ok? ==> |r.value| == |deplist|
    ensures r.Ok? ==> forall i :: 0 <= i < |deplist| ==> Ok(r.value[i]) == ParseDependency(deplist[i])
    ensures r.Err? ==>
      exists i ::
        && 0 <= i < |deplist|
        && ParseDependency(deplist[i]) == Err(r.error)
        && forall j :: 0 <= j < i ==> ParseDependency(deplist[j]).Ok?
    decreases |deplist|
  {
    if deplist == [] then Ok([])
    else
      var init := deplist[..|deplist| - 1];
      var last := deplist[|deplist| - 1];
      assert forall i :: 0 <= i < |init| ==> init[i] == deplist[i];
      match ParseAll(init)
      case Err(e) => Err(e)
      case Ok(ds) =>
        match ParseDependency(last)
        case Err(e) => Err(e)
        case Ok(d) =>
          assert forall i :: 0 <= i < |ds| ==> (ds + [d])[i] == ds[i];
          Ok(ds + [d])
  }

  /** Every token trimmed, in order. */
  function StripAll(tokens: seq<string>): (r: seq<string>)
    ensures |r| == |tokens|
    ensures forall i :: 0 <= i < |tokens| ==> r[i] == Strip(tokens[i])
  {
    if tokens == [] then [] else [Strip(tokens[0])] + StripAll(tokens[1..])
  }

  /** The trimmed comma tokens of a NEEDSALL, NEEDSONE or ACQUIRE value
      (featgraph's `deplist`). */
  function DepList(value: string): (r: seq<string>)
    ensures |r| == |SplitOn(value, ',')|
    ensures forall i :: 0 <= i < |r| ==> r[i] == Strip(SplitOn(value, ',')[i])
  {
    StripAll(SplitOn(value, ','))
  }

  /** The prerequisites of a NEEDSALL or NEEDSONE value. */
  function Dependencies(value: string): Result<seq<Dependency>, ParseError> {
    ParseAll(DepList(value))
  }

  // ---------------------------------------------------------------------
  // ACQUIRE

  /** The tokens other than "Automatic", in order. */
  function NonAutomatic(tokens: seq<string>): (r: seq<string>)
    ensures |r| <= |tokens|
    ensures forall t :: t in r ==> t != "Automatic"
    ensures r == [] <==> forall i :: 0 <= i < |tokens| ==> tokens[i] == "Automatic"
  {
    if tokens == [] then []
    else
      var rest := NonAutomatic(tokens[1..]);
      assert forall i :: 1 <= i < |tokens| ==> tokens[i] == tokens[1..][i - 1];
      if tokens[0] != "Automatic" then [tokens[0]] + rest else rest
  }

  /** An ACQUIRE value makes the feat automatic when no comma token,
      trimmed, is anything other than "Automatic". */
  function IsAutomaticAcquire(value: string): (r: bool)
    ensures r <==> forall i :: 0 <= i < |DepList(value)| ==> DepList(value)[i] == "Automatic"
  {
    NonAutomatic(DepList(value)) == []
  }

  // ---------------------------------------------------------------------
  // What a line asks for

  /** What one line asks of the record: featgraph's if/elif chain on the
      key, with the value already parsed where the branch parses it. */
  datatype Directive =
    | SetName(name: string)
    | SetHeading(heading: string)
    | Require(parsed: Result<seq<Dependency>, ParseError>)
    | Alternatives(parsed: Result<seq<Dependency>, ParseError>)
    | Acquire(automatic: bool)
    | NoEffect

  /** The directive of one entry: the five keys the parser knows, and no
      effect for every other key. */
  function DirectiveOf(e: Entry): Directive {
    if e.key == FeatNameKey then SetName(e.value)
    else if e.key == ParentHeadingKey then SetHeading(e.value)
    else if e.key == NeedsAllKey then Require(Dependencies(e.value))
    else if e.key == NeedsOneKey then Alternatives(Dependencies(e.value))
    else if e.key == AcquireKey then Acquire(IsAutomaticAcquire(e.value))
    else NoEffect
  }

  /** The directive of one line: a line without ':' has no effect. */
  function LineDirective(line: string): Directive {
    match EntryOf(line)
    case None => NoEffect
    case Some(e) => DirectiveOf(e)
  }

  /** The directives of the lines, in order. */
  function Directives(lines: seq<string>): (r: seq<Directive>)
    ensures |r| == |lines|
    ensures forall i :: 0 <= i < |lines| ==> r[i] == LineDirective(lines[i])
  {
    if lines == [] then [] else [LineDirective(lines[0])] + Directives(lines[1..])
  }

  /** The effect of one directive on the record being built. */
  function Apply(f: Feat, d: Directive): Result<Feat, ParseError> {
    match d
    case SetName(n) => Ok(f.(name := Some(n)))
    case SetHeading(h) => Ok(f.(parentHeading := Some(h)))
    case Require(Err(e)) => Err(e)
    case Require(Ok(ds)) => Ok(f.(deps := f.deps + ds))
    case Alternatives(Err(e)) => Err(e)
    case Alternatives(Ok(ds)) => Ok(f.(orDeps := f.orDeps + ds))
    case Acquire(a) => if a then Ok(f.(automatic := true)) else Ok(f)
    case NoEffect => Ok(f)
  }

  /** The directives applied in order; the first error stops the parse. */
  function ApplyAll(f: Feat, ds: seq<Directive>): Result<Feat, ParseError>
    decreases |ds|
  {
    if ds == [] then Ok(f)
    else
      match Apply(f, ds[0])
      case Err(e) => Err(e)
      case Ok(g) => ApplyAll(g, ds[1..])
  }

  /** `Feat.from_text`: the record a block of text describes. */
  function FromText(text: string): Result<Feat, ParseError> {
    ApplyAll(EmptyFeat, Directives(SplitLines(text)))
  }

  // ---------------------------------------------------------------------
  // Properties of single lines

  /** A line without ':' leaves the record as it was. */
  lemma LineWithoutColonIgnored(f: Feat, line: string)
    requires ':' !in line
    ensures Apply(f, LineDirective(line)) == Ok(f)
  {
  }

  /** A line whose key is none of the five the parser knows leaves the
      record as it was, whatever its value. */
  lemma UnrecognisedKeyIgnored(f: Feat, k: string, v: string)
    requires ':' !in k
    requires k == [] || !IsWhitespace(k[0])
    requires !IsRecognisedKey(k)
    ensures LineDirective(k + ":" + v) == NoEffect
    ensures Apply(f, LineDirective(k + ":" + v)) == Ok(f)
  {
    EntryOfKeyValue(k, v);
  }

  /** Parsed tokens appended to a list keep the list as a prefix and
      follow it in token order. */
  lemma ParsedAppended(prefix: seq<Dependency>, deplist: seq<string>)
    requires ParseAll(deplist).Ok?
    ensures var all := prefix + ParseAll(deplist).value;
      && |all| == |prefix| + |deplist|
      && all[..|prefix|] == prefix
      && forall i :: 0 <= i < |deplist| ==> Ok(all[|prefix| + i]) == ParseDependency(deplist[i])
  {
    var ds := ParseAll(deplist).value;
    var all := prefix + ds;
    assert all[..|prefix|] == prefix;
    forall i | 0 <= i < |deplist|
      ensures Ok(all[|prefix| + i]) == ParseDependency(deplist[i])
    {
      assert all[|prefix| + i] == ds[i];
    }
  }

  /** A Require directive for the tokens `deplist` appends one prerequisite
      per token, in token order, and changes nothing else; a token without a
      space is the error. */
  lemma RequireTokens(f: Feat, deplist: seq<string>)
    ensures var r := Apply(f, Require(ParseAll(deplist)));
      && (r.Ok? <==> forall i :: 0 <= i < |deplist| ==> ParseDependency(deplist[i]).Ok?)
      && (r.Ok? ==>
        && r.value == f.(deps := r.value.deps)
        && |r.value.deps| == |f.deps| + |deplist|
        && r.value.deps[..|f.deps|] == f.deps
        && forall i :: 0 <= i < |deplist| ==>
             Ok(r.value.deps[|f.deps| + i]) == ParseDependency(deplist[i]))
      && (r.Err? ==>
            exists i :: 0 <= i < |deplist| && ParseDependency(deplist[i]) == Err(r.error))
  {
    if ParseAll(deplist).Ok? {
      ParsedAppended(f.deps, deplist);
    }
  }

  /** An Alternatives directive does the same to the alternatives and leaves
      the required prerequisites alone. */
  lemma AlternativesTokens(f: Feat, deplist: seq<string>)
    ensures var r := Apply(f, Alternatives(ParseAll(deplist)));
      && (r.Ok? <==> forall i :: 0 <= i < |deplist| ==> ParseDependency(deplist[i]).Ok?)
      && (r.Ok? ==>
        && r.value == f.(orDeps := r.value.orDeps)
        && |r.value.orDeps| == |f.orDeps| + |deplist|
        && r.value.orDeps[..|f.orDeps|] == f.orDeps
        && forall i :: 0 <= i < |deplist| ==>
             Ok(r.value.orDeps[|f.orDeps| + i]) == ParseDependency(deplist[i]))
      && (r.Err? ==>
            exists i :: 0 <= i < |deplist| && ParseDependency(deplist[i]) == Err(r.error))
  {
    if ParseAll(deplist).Ok? {
      ParsedAppended(f.orDeps, deplist);
    }
  }

  /** NEEDSALL lines become Require directives of the value's trimmed comma
      tokens, NEEDSONE lines Alternatives directives. */
  lemma NeedsEntries(v: string)
    ensures DirectiveOf(Entry(NeedsAllKey, v)) == Require(ParseAll(DepList(v)))
    ensures DirectiveOf(Entry(NeedsOneKey, v)) == Alternatives(ParseAll(DepList(v)))
  {
    assert NeedsAllKey != FeatNameKey && NeedsAllKey != ParentHeadingKey;
    assert NeedsOneKey != FeatNameKey && NeedsOneKey != ParentHeadingKey && NeedsOneKey != NeedsAllKey;
  }

  /** An ACQUIRE value sets the flag exactly when every trimmed token is
      "Automatic", never clears it, and touches nothing else. */
  lemma AcquireEntry(f: Feat, v: string)
    ensures var r := Apply(f, DirectiveOf(Entry(AcquireKey, v)));
      var tokens := DepList(v);
      && r.Ok?
      && r.value == f.(automatic := r.value.automatic)
      && (r.value.automatic <==> f.automatic || forall i :: 0 <= i < |tokens| ==> tokens[i] == "Automatic")
  {
    assert AcquireKey != FeatNameKey && AcquireKey != ParentHeadingKey;
    assert AcquireKey != NeedsAllKey && AcquireKey != NeedsOneKey;
  }

  /** FEATNAME and PARENTHEADING store the cleaned value, replacing any
      earlier one. */
  lemma NameEntries(f: Feat, v: string)
    ensures Apply(f, DirectiveOf(Entry(FeatNameKey, v))) == Ok(f.(name := Some(v)))
    ensures Apply(f, DirectiveOf(Entry(ParentHeadingKey, v))) == Ok(f.(parentHeading := Some(v)))
  {
    assert ParentHeadingKey != FeatNameKey;
  }

  // ---------------------------------------------------------------------
  // A whole block, against a reference definition read from the back

  /** The name set by the last SetName, or `absent` when there is none. */
  function LastName(ds: seq<Directive>, absent: Option<string>): Option<string>
    decreases |ds|
  {
    if ds == [] then absent
    else if ds[|ds| - 1].SetName? then Some(ds[|ds| - 1].name)
    else LastName(ds[..|ds| - 1], absent)
  }

  /** The heading set by the last SetHeading, or `absent` when there is none. */
  function LastHeading(ds: seq<Directive>, absent: Option<string>): Option<string>
    decreases |ds|
  {
    if ds == [] then absent
    else if ds[|ds| - 1].SetHeading? then Some(ds[|ds| - 1].heading)
    else LastHeading(ds[..|ds| - 1], absent)
  }

  /** A NEEDSALL or NEEDSONE directive whose value did not parse. */
  predicate Fails(d: Directive) {
    (d.Require? || d.Alternatives?) && d.parsed.Err?
  }

  /** The required prerequisites of all Require directives, in order. */
  function Required(ds: seq<Directive>): seq<Dependency>
    decreases |ds|
  {
    if ds == [] then []
    else
      var d := ds[|ds| - 1];
      Required(ds[..|ds| - 1]) + (if d.Require? && d.parsed.Ok? then d.parsed.value else [])
  }

  /** The alternatives of all Alternatives directives, in order. */
  function Alternated(ds: seq<Directive>): seq<Dependency>
    decreases |ds|
  {
    if ds == [] then []
    else
      var d := ds[|ds| - 1];
      Alternated(ds[..|ds| - 1]) + (if d.Alternatives? && d.parsed.Ok? then d.parsed.value else [])
  }

  /** Some ACQUIRE line names only "Automatic". */
  predicate AcquiredAutomatically(ds: seq<Directive>) {
    exists i :: 0 <= i < |ds| && ds[i] == Acquire(true)
  }

  /** What a block, applied to `f`, should give: an error exactly when some
      NEEDS line has a token without a space (the first such line's error),
      and otherwise `f` with the last name and the last heading (if any),
      all required and all alternative prerequisites appended in order, and
      the flag set by any all-"Automatic" ACQUIRE line. */
  predicate BlockOutcome(f: Feat, ds: seq<Directive>, r: Result<Feat, ParseError>) {
    && (r.Ok? <==> forall i :: 0 <= i < |ds| ==> !Fails(ds[i]))
    && (r.Ok? ==> r.value == Feat(
         LastName(ds, f.name),
         LastHeading(ds, f.parentHeading),
         f.deps + Required(ds),
         f.orDeps + Alternated(ds),
         f.automatic || AcquiredAutomatically(ds)))
    && (r.Err? ==>
          exists i ::
            && 0 <= i < |ds|
            && Fails(ds[i])
            && ds[i].parsed.error == r.error
            && forall j :: 0 <= j < i ==> !Fails(ds[j]))
  }

  /** Applying one more directive at the end is applying it to the result
      of the others. */
  lemma {:induction false} ApplyAllSnoc(f: Feat, ds: seq<Directive>, d: Directive)
    ensures ApplyAll(f, ds + [d]) ==
      match ApplyAll(f, ds)
      case Err(e) => Err(e)
      case Ok(g) => Apply(g, d)
    decreases |ds|
  {
    if ds == [] {
      assert ds + [d] == [d];
    } else {
      assert (ds + [d])[0] == ds[0];
      assert (ds + [d])[1..] == ds[1..] + [d];
      match Apply(f, ds[0])
      case Err(e) =>
      case Ok(g) => ApplyAllSnoc(g, ds[1..], d);
    }
  }

  /** One more directive at the end: the last name and heading are its
      own when it sets them, and its prerequisites come after the others. */
  lemma ReferenceSnoc(ds: seq<Directive>, d: Directive, name: Option<string>, heading: Option<string>)
    ensures LastName(ds + [d], name) == if d.SetName? then Some(d.name) else LastName(ds, name)
    ensures LastHeading(ds + [d], heading) == if d.SetHeading? then Some(d.heading) else LastHeading(ds, heading)
    ensures Required(ds + [d]) == Required(ds) + (if d.Require? && d.parsed.Ok? then d.parsed.value else [])
    ensures Alternated(ds + [d]) == Alternated(ds) + (if d.Alternatives? && d.parsed.Ok? then d.parsed.value else [])
  {
    assert (ds + [d])[..|ds|] == ds;
  }

  /** One more directive makes the record automatic exactly when it is an
      all-"Automatic" ACQUIRE or an earlier one was. */
  lemma AcquiredSnoc(ds: seq<Directive>, d: Directive)
    ensures AcquiredAutomatically(ds + [d]) <==> AcquiredAutomatically(ds) || d == Acquire(true)
  {
    var ds' := ds + [d];
    assert ds'[|ds|] == d;
    if AcquiredAutomatically(ds) {
      var i :| 0 <= i < |ds| && ds[i] == Acquire(true);
      assert ds'[i] == ds[i];
    }
    if AcquiredAutomatically(ds') {
      var i :| 0 <= i < |ds'| && ds'[i] == Acquire(true);
      if i < |ds| {
        assert ds[i] == ds'[i];
      }
    }
  }

  /** The first failing directive of `ds` stays the first one when another
      directive follows. */
  lemma FirstFailureSnoc(ds: seq<Directive>, d: Directive, e: ParseError)
    requires exists i :: 0 <= i < |ds| && Fails(ds[i]) && ds[i].parsed.error == e
                         && forall j :: 0 <= j < i ==> !Fails(ds[j])
    ensures exists i :: 0 <= i < |ds + [d]| && Fails((ds + [d])[i]) && (ds + [d])[i].parsed.error == e
                         && forall j :: 0 <= j < i ==> !Fails((ds + [d])[j])
  {
    var i :| 0 <= i < |ds| && Fails(ds[i]) && ds[i].parsed.error == e
             && forall j :: 0 <= j < i ==> !Fails(ds[j]);
    var ds' := ds + [d];
    assert forall j :: 0 <= j <= i ==> ds'[j] == ds[j];
  }

  /** One more directive at the end extends the reference outcome by it. */
  lemma BlockOutcomeSnoc(f: Feat, ds: seq<Directive>, r: Result<Feat, ParseError>, d: Directive)
    requires BlockOutcome(f, ds, r)
    ensures BlockOutcome(f, ds + [d], if r.Err? then r else Apply(r.value, d))
  {
    var ds' := ds + [d];
    assert ds'[|ds|] == d;
    assert forall i :: 0 <= i < |ds| ==> ds'[i] == ds[i];
    if r.Err? {
      FirstFailureSnoc(ds, d, r.error);
    } else if Fails(d) {
      assert forall j :: 0 <= j < |ds| ==> !Fails(ds'[j]);
    } else {
      ReferenceSnoc(ds, d, f.name, f.parentHeading);
      AcquiredSnoc(ds, d);
    }
  }

  /** The parser meets the reference definition on every sequence of
      directives and every starting record. */
  lemma {:induction false} ApplyAllMeetsReference(f: Feat, ds: seq<Directive>)
    ensures BlockOutcome(f, ds, ApplyAll(f, ds))
    decreases |ds|
  {
    if ds != [] {
      var init := ds[..|ds| - 1];
      var last := ds[|ds| - 1];
      assert ds == init + [last];
      ApplyAllMeetsReference(f, init);
      ApplyAllSnoc(f, init, last);
      BlockOutcomeSnoc(f, init, ApplyAll(f, init), last);
    }
  }

  /** `from_text` meets the reference definition, starting from the empty
      record, on the directives of the text's lines. */
  lemma FromTextMeetsReference(text: string)
    ensures BlockOutcome(EmptyFeat, Directives(SplitLines(text)), FromText(text))
  {
    ApplyAllMeetsReference(EmptyFeat, Directives(SplitLines(text)));
  }

  /** The full name of a parsed record: the last FEATNAME when no
      PARENTHEADING occurs, and otherwise the last PARENTHEADING, ": " and
      the last FEATNAME. */
  lemma FullNameFromText(text: string)
    requires FromText(text).Ok?
    ensures var ds := Directives(SplitLines(text));
      var name := LastName(ds, None);
      match LastHeading(ds, None)
      case None => FullName(FromText(text).value) == name
      case Some(p) => FullName(FromText(text).value) == Some(p + ": " + NameText(name))
  {
    FromTextMeetsReference(text);
  }

  /** Once set, the automatic flag stays set whatever directives follow. */
  lemma AutomaticNeverCleared(f: Feat, ds: seq<Directive>)
    requires f.automatic
    requires ApplyAll(f, ds).Ok?
    ensures ApplyAll(f, ds).value.automatic
  {
    ApplyAllMeetsReference(f, ds);
  }
}
