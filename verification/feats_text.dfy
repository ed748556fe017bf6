/** Records written the way the feats file writes them: one `KEY: value;`
    line per field, lists of tokens separated by ", ", a prerequisite as its
    kind, a space and its target. The parser reads every such record back
    as the directives its lines were written for. */
module FeatsText {
  import opened Results
  import opened Text
  import opened Feats
  import opened FeatParser

  // ---------------------------------------------------------------------
  // Fields

  /** One line of the feats file: `KEY: value;`. */
  function Field(key: string, value: string): string {
    key + ": " + value + ";"
  }

  /** A field is its key, ':' and the rest of the line. */
  lemma FieldAfterColon(key: string, value: string)
    ensures Field(key, value) == key + ":" + (" " + value + ";")
  {
  }

  /** A line built from pieces without line breaks has none. */
  lemma FieldUnbroken(key: string, value: string)
    requires NoLineBreak(key) && NoLineBreak(value)
    ensures NoLineBreak(Field(key, value))
  {
    assert NoLineBreak(": ");
    assert NoLineBreak(";");
    NoLineBreakAppend(key, ": ");
    NoLineBreakAppend(key + ": ", value);
    NoLineBreakAppend(key + ": " + value, ";");
  }

  /** A key as it can start a line: no ':', no whitespace in front and no
      line break. */
  predicate FieldKey(key: string) {
    ':' !in key && key != [] && !IsWhitespace(key[0]) && NoLineBreak(key)
  }

  /** A value that reads back unchanged: something on both ends, no final
      ';' and no line break. */
  predicate FieldValue(r: string) {
    r != [] && !IsWhitespace(r[0]) && !IsWhitespace(r[|r| - 1]) && r[|r| - 1] != ';'
    && NoLineBreak(r)
  }

  /** A key the parser ignores. */
  predicate IgnoredKey(key: string) {
    FieldKey(key) && !IsRecognisedKey(key)
  }

  /** The five keys the parser knows can start a line. */
  lemma KnownKeys()
    ensures FieldKey(FeatNameKey) && FieldKey(ParentHeadingKey)
    ensures FieldKey(NeedsAllKey) && FieldKey(NeedsOneKey) && FieldKey(AcquireKey)
  {
  }

  /** A field with a value that reads back unchanged is one line, read as
      its key and value. */
  lemma FieldReadBack(key: string, r: string)
    requires FieldKey(key) && FieldValue(r)
    ensures NoLineBreak(Field(key, r))
    ensures EntryOf(Field(key, r)) == Some(Entry(key, r))
  {
    FieldUnbroken(key, r);
    FieldEntry(key, r);
  }

  /** A field with a key the parser ignores is one line with no effect,
      whatever its value. */
  lemma IgnoredFieldReadBack(key: string, value: string)
    requires IgnoredKey(key) && NoLineBreak(value)
    ensures NoLineBreak(Field(key, value))
    ensures LineDirective(Field(key, value)) == NoEffect
  {
    FieldUnbroken(key, value);
    FieldAfterColon(key, value);
    UnrecognisedKeyIgnored(EmptyFeat, key, " " + value + ";");
  }

  // ---------------------------------------------------------------------
  // Lists of tokens

  /** A token that survives being written into a list and read back:
      something on both ends, no comma, no final ';' and no line break. */
  predicate WritableToken(t: string) {
    t != [] && Tight(t) && ',' !in t && t[|t| - 1] != ';' && NoLineBreak(t)
  }

  /** The comma-separated parts of a written list: the first token, then
      every further token after one space. */
  function SpacedParts(tokens: seq<string>): (r: seq<string>)
    ensures |r| == |tokens|
    ensures |tokens| > 0 ==> r[0] == tokens[0]
    ensures forall i :: 0 < i < |tokens| ==> r[i] == " " + tokens[i]
  {
    seq(|tokens|, i requires 0 <= i < |tokens| => if i == 0 then tokens[i] else " " + tokens[i])
  }

  /** Tokens written as a list: separated by ", ". */
  function CommaText(tokens: seq<string>): string {
    Join(SpacedParts(tokens), ',')
  }

  /** A written list is its first token, ", " and the list of the rest. */
  lemma CommaTextCons(t: string, ts: seq<string>)
    requires ts != []
    ensures CommaText([t] + ts) == t + ", " + CommaText(ts)
  {
    var parts := SpacedParts([t] + ts);
    var rest := SpacedParts(ts);
    assert parts[1..] == [" " + rest[0]] + rest[1..];
    JoinPrefixed(" ", rest, ',');
    assert Join(parts, ',') == t + [','] + Join(parts[1..], ',');
    assert t + [','] + (" " + Join(rest, ',')) == t + ", " + Join(rest, ',');
  }

  /** Each part of a written list holds no comma and trims to its token. */
  lemma SpacedPartsTrim(tokens: seq<string>)
    requires forall i :: 0 <= i < |tokens| ==> WritableToken(tokens[i])
    ensures forall i :: 0 <= i < |tokens| ==> ',' !in SpacedParts(tokens)[i]
    ensures forall i :: 0 <= i < |tokens| ==> Strip(SpacedParts(tokens)[i]) == tokens[i]
  {
    var parts := SpacedParts(tokens);
    forall i | 0 <= i < |tokens|
      ensures ',' !in parts[i] && Strip(parts[i]) == tokens[i]
    {
      StripSpaced(tokens[i]);
    }
  }

  /** A written list of tokens reads back as those tokens. */
  lemma CommaTextTokens(tokens: seq<string>)
    requires tokens != []
    requires forall i :: 0 <= i < |tokens| ==> WritableToken(tokens[i])
    ensures DepList(CommaText(tokens)) == tokens
  {
    var parts := SpacedParts(tokens);
    SpacedPartsTrim(tokens);
    SplitOnJoin(parts, ',');
  }

  /** A written non-empty list is a value that reads back unchanged. */
  lemma CommaTextValue(tokens: seq<string>)
    requires tokens != []
    requires forall i :: 0 <= i < |tokens| ==> WritableToken(tokens[i])
    ensures FieldValue(CommaText(tokens))
  {
    var parts := SpacedParts(tokens);
    forall i | 0 <= i < |parts|
      ensures parts[i] != [] && NoLineBreak(parts[i])
    {
      if i > 0 {
        assert NoLineBreak(" ");
        NoLineBreakAppend(" ", tokens[i]);
      }
    }
    JoinUnbroken(parts, ',');
    JoinEnds(parts, ',');
    var last := tokens[|tokens| - 1];
    assert parts[|parts| - 1][|parts[|parts| - 1]| - 1] == last[|last| - 1];
  }

  // ---------------------------------------------------------------------
  // Prerequisites

  /** A prerequisite the file can carry: a kind with no space, no comma
      and nothing blank in front, and a target that is a writable token. */
  predicate Writable(d: Dependency) {
    && d.kind != [] && !IsWhitespace(d.kind[0])
    && ' ' !in d.kind && ',' !in d.kind && NoLineBreak(d.kind)
    && WritableToken(d.target)
  }

  /** A prerequisite as a token: its kind, one space, its target. */
  function DependencyToken(d: Dependency): string {
    d.kind + " " + d.target
  }

  /** The tokens of a list of prerequisites. */
  function DependencyTokens(ds: seq<Dependency>): (r: seq<string>)
    ensures |r| == |ds|
    ensures forall i :: 0 <= i < |ds| ==> r[i] == DependencyToken(ds[i])
  {
    seq(|ds|, i requires 0 <= i < |ds| => DependencyToken(ds[i]))
  }

  /** A list of prerequisites as a NEEDSALL or NEEDSONE value. */
  function DependenciesText(ds: seq<Dependency>): string {
    CommaText(DependencyTokens(ds))
  }

  /** The token of a writable prerequisite is writable and parses back as
      the prerequisite. */
  lemma DependencyTokenReadBack(d: Dependency)
    requires Writable(d)
    ensures WritableToken(DependencyToken(d))
    ensures ParseDependency(DependencyToken(d)) == Ok(d)
  {
    var t := DependencyToken(d);
    assert NoLineBreak(" ");
    NoLineBreakAppend(d.kind, " ");
    NoLineBreakAppend(d.kind + " ", d.target);
    assert t[0] == d.kind[0];
    assert t[|t| - 1] == d.target[|d.target| - 1];
    ParseDependencyOf(d.kind, d.target);
  }

  /** Parsing the tokens of writable prerequisites gives them back. */
  lemma ParseAllTokens(ds: seq<Dependency>)
    requires forall i :: 0 <= i < |ds| ==> Writable(ds[i])
    ensures forall i :: 0 <= i < |ds| ==> WritableToken(DependencyTokens(ds)[i])
    ensures ParseAll(DependencyTokens(ds)) == Ok(ds)
  {
    var tokens := DependencyTokens(ds);
    forall i | 0 <= i < |ds|
      ensures WritableToken(tokens[i]) && ParseDependency(tokens[i]) == Ok(ds[i])
    {
      DependencyTokenReadBack(ds[i]);
    }
    var r := ParseAll(tokens);
    assert r.Ok?;
    assert forall i :: 0 <= i < |ds| ==> r.value[i] == ds[i];
    assert r.value == ds;
  }

  /** A written non-empty list of writable prerequisites is a value that
      reads back unchanged, and its prerequisites parse back as the list. */
  lemma DependenciesRoundTrip(ds: seq<Dependency>)
    requires ds != []
    requires forall i :: 0 <= i < |ds| ==> Writable(ds[i])
    ensures FieldValue(DependenciesText(ds))
    ensures Dependencies(DependenciesText(ds)) == Ok(ds)
  {
    var tokens := DependencyTokens(ds);
    ParseAllTokens(ds);
    CommaTextTokens(tokens);
    CommaTextValue(tokens);
  }

  // ---------------------------------------------------------------------
  // Lines

  /** One line of a record, by what it holds. */
  datatype Line =
    | Other(key: string, value: string)
    | Named(name: string)
    | Headed(heading: string)
    | NeedsAll(deps: seq<Dependency>)
    | NeedsOne(deps: seq<Dependency>)
    | Acquired(tokens: seq<string>)

  /** The text of a line, without its line feed. */
  function LineText(l: Line): string {
    match l
    case Other(k, v) => Field(k, v)
    case Named(n) => Field(FeatNameKey, n)
    case Headed(h) => Field(ParentHeadingKey, h)
    case NeedsAll(ds) => Field(NeedsAllKey, DependenciesText(ds))
    case NeedsOne(ds) => Field(NeedsOneKey, DependenciesText(ds))
    case Acquired(ts) => Field(AcquireKey, CommaText(ts))
  }

  /** A line that reads back as it was meant: ignored keys with any
      one-line value, names and headings that read back unchanged, and
      non-empty lists of writable tokens and prerequisites. */
  predicate WellFormed(l: Line) {
    match l
    case Other(k, v) => IgnoredKey(k) && NoLineBreak(v)
    case Named(n) => FieldValue(n)
    case Headed(h) => FieldValue(h)
    case NeedsAll(ds) => ds != [] && forall i :: 0 <= i < |ds| ==> Writable(ds[i])
    case NeedsOne(ds) => ds != [] && forall i :: 0 <= i < |ds| ==> Writable(ds[i])
    case Acquired(ts) => ts != [] && forall i :: 0 <= i < |ts| ==> WritableToken(ts[i])
  }

  /** The directive a line was written for. */
  function Meaning(l: Line): Directive {
    match l
    case Other(_, _) => NoEffect
    case Named(n) => SetName(n)
    case Headed(h) => SetHeading(h)
    case NeedsAll(ds) => Require(Ok(ds))
    case NeedsOne(ds) => Alternatives(Ok(ds))
    case Acquired(ts) => Acquire(NonAutomatic(ts) == [])
  }

  /** A line of a key the parser knows, with a value that reads back
      unchanged, asks for what that key and value ask for. */
  lemma KeyedLine(key: string, r: string)
    requires FieldKey(key) && FieldValue(r)
    ensures NoLineBreak(Field(key, r))
    ensures LineDirective(Field(key, r)) == DirectiveOf(Entry(key, r))
  {
    FieldReadBack(key, r);
  }

  /** A name line reads back as its name. */
  lemma NamedLineReadBack(r: string)
    requires FieldValue(r)
    ensures NoLineBreak(LineText(Named(r)))
    ensures LineDirective(LineText(Named(r))) == SetName(r)
  {
    KnownKeys();
    KeyedLine(FeatNameKey, r);
  }

  /** A heading line reads back as its heading. */
  lemma HeadedLineReadBack(r: string)
    requires FieldValue(r)
    ensures NoLineBreak(LineText(Headed(r)))
    ensures LineDirective(LineText(Headed(r))) == SetHeading(r)
  {
    KnownKeys();
    KeyedLine(ParentHeadingKey, r);
    assert ParentHeadingKey != FeatNameKey;
  }

  /** NEEDSALL and NEEDSONE lines with a value that reads back unchanged
      ask for the prerequisites the value parses as. */
  lemma NeedsValue(v: string, ds: seq<Dependency>)
    requires FieldValue(v) && Dependencies(v) == Ok(ds)
    ensures NoLineBreak(Field(NeedsAllKey, v)) && LineDirective(Field(NeedsAllKey, v)) == Require(Ok(ds))
    ensures NoLineBreak(Field(NeedsOneKey, v)) && LineDirective(Field(NeedsOneKey, v)) == Alternatives(Ok(ds))
  {
    KnownKeys();
    KeyedLine(NeedsAllKey, v);
    KeyedLine(NeedsOneKey, v);
    NeedsEntries(v);
  }

  /** NEEDSALL and NEEDSONE lines read back as their prerequisites. */
  lemma NeedsLinesReadBack(ds: seq<Dependency>)
    requires ds != []
    requires forall i :: 0 <= i < |ds| ==> Writable(ds[i])
    ensures NoLineBreak(LineText(NeedsAll(ds)))
    ensures LineDirective(LineText(NeedsAll(ds))) == Require(Ok(ds))
    ensures NoLineBreak(LineText(NeedsOne(ds)))
    ensures LineDirective(LineText(NeedsOne(ds))) == Alternatives(Ok(ds))
  {
    assert LineText(NeedsAll(ds)) == Field(NeedsAllKey, DependenciesText(ds));
    assert LineText(NeedsOne(ds)) == Field(NeedsOneKey, DependenciesText(ds));
    DependenciesRoundTrip(ds);
    NeedsValue(DependenciesText(ds), ds);
  }

  /** An ACQUIRE line asks for the automatic flag. */
  lemma AcquireDirective(v: string)
    ensures DirectiveOf(Entry(AcquireKey, v)) == Acquire(IsAutomaticAcquire(v))
  {
    assert AcquireKey != FeatNameKey && AcquireKey != ParentHeadingKey;
    assert AcquireKey != NeedsAllKey && AcquireKey != NeedsOneKey;
  }

  /** An ACQUIRE line makes the record automatic exactly when every token
      is "Automatic". */
  lemma AcquiredLineReadBack(ts: seq<string>)
    requires ts != []
    requires forall i :: 0 <= i < |ts| ==> WritableToken(ts[i])
    ensures NoLineBreak(LineText(Acquired(ts)))
    ensures LineDirective(LineText(Acquired(ts))) == Acquire(NonAutomatic(ts) == [])
  {
    AcquiredText(ts);
    CommaTextTokens(ts);
    CommaTextValue(ts);
    AcquireValue(CommaText(ts), ts);
  }

  /** The text of an ACQUIRE line is the field of its written list. */
  lemma AcquiredText(ts: seq<string>)
    ensures LineText(Acquired(ts)) == Field(AcquireKey, CommaText(ts))
  {
  }

  /** An ACQUIRE line with a value that reads back unchanged asks for the
      flag exactly when every token of the value is "Automatic". */
  lemma AcquireValue(v: string, ts: seq<string>)
    requires FieldValue(v) && DepList(v) == ts
    ensures NoLineBreak(Field(AcquireKey, v))
    ensures LineDirective(Field(AcquireKey, v)) == Acquire(NonAutomatic(ts) == [])
  {
    KnownKeys();
    KeyedLine(AcquireKey, v);
    AcquireDirective(v);
  }

  /** Every well-formed line is one line that reads back as the directive
      it was written for. */
  lemma LineReadBack(l: Line)
    requires WellFormed(l)
    ensures NoLineBreak(LineText(l))
    ensures LineDirective(LineText(l)) == Meaning(l)
  {
    match l
    case Other(k, v) => IgnoredFieldReadBack(k, v);
    case Named(n) => NamedLineReadBack(n);
    case Headed(h) => HeadedLineReadBack(h);
    case NeedsAll(ds) => NeedsLinesReadBack(ds);
    case NeedsOne(ds) => NeedsLinesReadBack(ds);
    case Acquired(ts) => AcquiredLineReadBack(ts);
  }

  // ---------------------------------------------------------------------
  // Records

  /** The texts of the lines, in order. */
  function LineTexts(ls: seq<Line>): (r: seq<string>)
    ensures |r| == |ls|
    ensures forall i :: 0 <= i < |ls| ==> r[i] == LineText(ls[i])
  {
    seq(|ls|, i requires 0 <= i < |ls| => LineText(ls[i]))
  }

  /** The directives the lines were written for, in order. */
  function Meanings(ls: seq<Line>): (r: seq<Directive>)
    ensures |r| == |ls|
    ensures forall i :: 0 <= i < |ls| ==> r[i] == Meaning(ls[i])
  {
    seq(|ls|, i requires 0 <= i < |ls| => Meaning(ls[i]))
  }

  /** A record: every line followed by a line feed. */
  function RecordText(ls: seq<Line>): string {
    Terminated(LineTexts(ls))
  }

  /** A record of well-formed lines parses as the directives its lines
      were written for, applied in order to the empty record. */
  lemma RecordReadBack(ls: seq<Line>)
    requires forall i :: 0 <= i < |ls| ==> WellFormed(ls[i])
    ensures FromText(RecordText(ls)) == ApplyAll(EmptyFeat, Meanings(ls))
  {
    var lines := LineTexts(ls);
    forall i | 0 <= i < |ls|
      ensures NoLineBreak(lines[i]) && LineDirective(lines[i]) == Meaning(ls[i])
    {
      LineReadBack(ls[i]);
    }
    SplitLinesTerminated(lines);
    assert Directives(lines) == Meanings(ls);
  }

  // ---------------------------------------------------------------------
  // A feat written as a record

  /** A line when `present` holds, no line otherwise. */
  function LineIf(present: bool, l: Line): seq<Line> {
    if present then [l] else []
  }

  /** A feat written as a record: its heading, its name, its required
      prerequisites, its alternatives and, for an automatic feat, the
      line "ACQUIRE: Automatic;", each only when there is something to
      write. */
  function FeatRecord(f: Feat): seq<Line> {
    NamingLines(f)
    + LineIf(f.deps != [], NeedsAll(f.deps))
    + LineIf(f.orDeps != [], NeedsOne(f.orDeps))
    + LineIf(f.automatic, Acquired(["Automatic"]))
  }

  /** The heading and name lines of a feat's record. */
  function NamingLines(f: Feat): seq<Line> {
    LineIf(f.parentHeading.Some?, Headed(if f.parentHeading.Some? then f.parentHeading.value else ""))
    + LineIf(f.name.Some?, Named(if f.name.Some? then f.name.value else ""))
  }

  /** A feat whose every field can be written and read back: name and
      heading read back unchanged and every prerequisite is writable. */
  predicate WritableFeat(f: Feat) {
    && (f.parentHeading.Some? ==> FieldValue(f.parentHeading.value))
    && (f.name.Some? ==> FieldValue(f.name.value))
    && (forall i :: 0 <= i < |f.deps| ==> Writable(f.deps[i]))
    && (forall i :: 0 <= i < |f.orDeps| ==> Writable(f.orDeps[i]))
  }

  /** "ACQUIRE: Automatic;" is a well-formed line that sets the flag. */
  lemma AutomaticLine()
    ensures WellFormed(Acquired(["Automatic"]))
    ensures Meaning(Acquired(["Automatic"])) == Acquire(true)
  {
    assert NonAutomatic(["Automatic"]) == [];
  }

  /** Applying the directives of one more optional line. */
  lemma ApplyLineIf(ls: seq<Line>, present: bool, l: Line)
    ensures ApplyAll(EmptyFeat, Meanings(ls + LineIf(present, l))) ==
      if !present then ApplyAll(EmptyFeat, Meanings(ls))
      else
        match ApplyAll(EmptyFeat, Meanings(ls))
        case Err(e) => Err(e)
        case Ok(g) => Apply(g, Meaning(l))
  {
    if present {
      assert Meanings(ls + [l]) == Meanings(ls) + [Meaning(l)];
      ApplyAllSnoc(EmptyFeat, Meanings(ls), Meaning(l));
    } else {
      assert ls + [] == ls;
    }
  }

  /** Every line of a writable feat's record is well formed. */
  lemma FeatRecordWellFormed(f: Feat)
    requires WritableFeat(f)
    ensures forall i :: 0 <= i < |FeatRecord(f)| ==> WellFormed(FeatRecord(f)[i])
  {
    AutomaticLine();
  }

  /** The heading and name lines set the heading and the name. */
  lemma NamingApplied(f: Feat)
    ensures ApplyAll(EmptyFeat, Meanings(NamingLines(f)))
      == Ok(EmptyFeat.(parentHeading := f.parentHeading, name := f.name))
  {
    var h := if f.parentHeading.Some? then f.parentHeading.value else "";
    var n := if f.name.Some? then f.name.value else "";
    var ls1 := LineIf(f.parentHeading.Some?, Headed(h));
    ApplyLineIf([], f.parentHeading.Some?, Headed(h));
    assert [] + ls1 == ls1;
    assert ApplyAll(EmptyFeat, Meanings(ls1)) == Ok(EmptyFeat.(parentHeading := f.parentHeading));
    ApplyLineIf(ls1, f.name.Some?, Named(n));
  }

  /** The directives of a feat's record, applied in order to the empty
      record, rebuild the feat. */
  lemma FeatRecordApplied(f: Feat)
    ensures ApplyAll(EmptyFeat, Meanings(FeatRecord(f))) == Ok(f)
  {
    var ls2 := NamingLines(f);
    var ls3 := ls2 + LineIf(f.deps != [], NeedsAll(f.deps));
    var ls4 := ls3 + LineIf(f.orDeps != [], NeedsOne(f.orDeps));
    NamingApplied(f);
    var g2 := EmptyFeat.(parentHeading := f.parentHeading, name := f.name);
    ApplyLineIf(ls2, f.deps != [], NeedsAll(f.deps));
    var g3 := g2.(deps := f.deps);
    assert [] + f.deps == f.deps;
    assert ApplyAll(EmptyFeat, Meanings(ls3)) == Ok(g3);
    ApplyLineIf(ls3, f.orDeps != [], NeedsOne(f.orDeps));
    var g4 := g3.(orDeps := f.orDeps);
    assert [] + f.orDeps == f.orDeps;
    assert ApplyAll(EmptyFeat, Meanings(ls4)) == Ok(g4);
    ApplyLineIf(ls4, f.automatic, Acquired(["Automatic"]));
    AutomaticLine();
  }

  /** Writing a feat as a record and parsing the record gives the feat
      back. */
  lemma FromTextRoundTrip(f: Feat)
    requires WritableFeat(f)
    ensures FromText(RecordText(FeatRecord(f))) == Ok(f)
  {
    FeatRecordWellFormed(f);
    RecordReadBack(FeatRecord(f));
    FeatRecordApplied(f);
  }
}
