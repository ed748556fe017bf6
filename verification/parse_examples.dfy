/** The parser on the records of featgraph's own test suite
    (featgraph/test_parse.py). Each record is written as its lines; the
    fields the expected outcome does not depend on (descriptions, tags,
    class lists, levels, icons, verification notes) are parameters: the
    outcome holds whatever text they hold, provided it has no line break,
    which the test's own texts meet. */
module ParseExamples {
  import opened Results
  import opened Text
  import opened Feats
  import opened FeatParser
  import opened FeatsText

  /** The keys of the test records that the parser ignores. */
  lemma IgnoredKeys()
    ensures IgnoredKey("FEATDESCRIPTION") && IgnoredKey("FEATTAG")
    ensures IgnoredKey("CLASSLIST") && IgnoredKey("LEVEL")
    ensures IgnoredKey("ICON") && IgnoredKey("VERIFIED")
  {
    DescriptionKeys();
    ListKeys();
  }

  lemma DescriptionKeys()
    ensures IgnoredKey("FEATDESCRIPTION") && IgnoredKey("FEATTAG")
  {
  }

  lemma ListKeys()
    ensures IgnoredKey("CLASSLIST") && IgnoredKey("LEVEL")
    ensures IgnoredKey("ICON") && IgnoredKey("VERIFIED")
  {
  }

  /** A NEEDSALL line of one prerequisite names its kind and target. */
  lemma NeedsOneText(d: Dependency)
    ensures LineText(NeedsAll([d])) == "NEEDSALL: " + DependencyToken(d) + ";"
  {
    assert DependencyTokens([d]) == [DependencyToken(d)];
    assert SpacedParts([DependencyToken(d)]) == [DependencyToken(d)];
    assert "NEEDSALL" + ": " == "NEEDSALL: ";
  }

  /** The text of an ACQUIRE line, and of a list of one token. */
  lemma AcquireText(ts: seq<string>)
    ensures LineText(Acquired(ts)) == "ACQUIRE: " + CommaText(ts) + ";"
  {
    assert "ACQUIRE" + ": " == "ACQUIRE: ";
  }

  lemma CommaTextSingle(t: string)
    ensures CommaText([t]) == t
  {
    assert SpacedParts([t]) == [t];
  }

  /** A written list of three tokens. */
  lemma ThreeTokensText(a: string, b: string, c: string)
    ensures CommaText([a, b, c]) == a + ", " + (b + ", " + c)
  {
    assert [a, b, c] == [a] + [b, c];
    CommaTextCons(a, [b, c]);
    assert [b, c] == [b] + [c];
    CommaTextCons(b, [c]);
    CommaTextSingle(c);
  }

  /** A prerequisite on a feat is written as "Feat " and the feat. */
  lemma FeatToken(t: string)
    ensures DependencyToken(Dependency("Feat", t)) == "Feat " + t
  {
    assert "Feat" + " " == "Feat ";
  }

  /** ACQUIRE: Train is a well-formed line that asks for nothing. */
  lemma TrainLine()
    ensures WellFormed(Acquired(["Train"]))
    ensures Meaning(Acquired(["Train"])) == Acquire(false)
  {
    assert NonAutomatic(["Train"]) == ["Train"];
  }

  /** An ACQUIRE line that starts with Train and holds only Train and
      AutoNoPrereq is well formed and does not make the record automatic. */
  lemma TrainedLine(ts: seq<string>)
    requires ts != [] && ts[0] == "Train"
    requires forall i :: 0 <= i < |ts| ==> ts[i] == "Train" || ts[i] == "AutoNoPrereq"
    ensures WellFormed(Acquired(ts))
    ensures Meaning(Acquired(ts)) == Acquire(false)
  {
    TrainLine();
    assert WritableToken("AutoNoPrereq");
  }

  /** A prerequisite on a feat with a writable target is writable. */
  lemma FeatPrerequisite(t: string)
    requires WritableToken(t)
    ensures Writable(Dependency("Feat", t))
  {
  }

  /** The written list of two and of three prerequisites. */
  lemma TwoDependenciesText(a: Dependency, b: Dependency)
    ensures DependenciesText([a, b]) == DependencyToken(a) + ", " + DependencyToken(b)
  {
    var x, y := DependencyToken(a), DependencyToken(b);
    assert DependencyTokens([a, b]) == [x, y];
    var parts := SpacedParts([x, y]);
    assert parts == [x, " " + y];
    assert Join(parts, ',') == x + [','] + Join(parts[1..], ',');
    assert parts[1..] == [" " + y];
    assert x + [','] + (" " + y) == x + ", " + y;
  }

  lemma ThreeDependenciesText(a: Dependency, b: Dependency, c: Dependency)
    ensures DependenciesText([a, b, c])
      == DependencyToken(a) + ", " + DependencyToken(b) + ", " + DependencyToken(c)
  {
    var x, y, z := DependencyToken(a), DependencyToken(b), DependencyToken(c);
    assert DependencyTokens([a, b, c]) == [x, y, z];
    var parts := SpacedParts([x, y, z]);
    assert parts == [x, " " + y, " " + z];
    assert Join(parts, ',') == x + [','] + Join(parts[1..], ',');
    assert parts[1..] == [" " + y, " " + z];
    assert Join(parts[1..], ',') == " " + y + [','] + Join(parts[1..][1..], ',');
    assert parts[1..][1..] == [" " + z];
    assert x + [','] + (" " + y + [','] + " " + z) == x + ", " + y + ", " + z;
  }

  /** The text of NEEDSALL and NEEDSONE lines. */
  lemma NeedsText(ds: seq<Dependency>)
    ensures LineText(NeedsAll(ds)) == "NEEDSALL: " + DependenciesText(ds) + ";"
    ensures LineText(NeedsOne(ds)) == "NEEDSONE: " + DependenciesText(ds) + ";"
  {
    assert "NEEDSALL" + ": " == "NEEDSALL: ";
    assert "NEEDSONE" + ": " == "NEEDSONE: ";
  }

  // ---------------------------------------------------------------------
  // test_parse_name

  /** The record of test_parse_name. */
  function AbundantStep(description: string, classList: string, level: string, icon: string): seq<Line> {
    [ Named("Abundant Step"),
      Other("FEATDESCRIPTION", description),
      Other("CLASSLIST", classList),
      Other("LEVEL", level),
      Acquired(["Automatic"]),
      Other("ICON", icon) ]
  }

  /** The lines of the record are the lines of the test's text. */
  lemma AbundantStepText(description: string, classList: string, level: string, icon: string)
    ensures LineTexts(AbundantStep(description, classList, level, icon)) == [
      "FEATNAME: Abundant Step;",
      "FEATDESCRIPTION: " + description + ";",
      "CLASSLIST: " + classList + ";",
      "LEVEL: " + level + ";",
      "ACQUIRE: Automatic;",
      "ICON: " + icon + ";"]
  {
    assert Field(FeatNameKey, "Abundant Step") == "FEATNAME: Abundant Step;";
    assert Field(AcquireKey, CommaText(["Automatic"])) == "ACQUIRE: Automatic;";
    assert "FEATDESCRIPTION" + ": " == "FEATDESCRIPTION: ";
    assert "CLASSLIST" + ": " == "CLASSLIST: ";
    assert "LEVEL" + ": " == "LEVEL: ";
    assert "ICON" + ": " == "ICON: ";
  }

  lemma AbundantStepLines()
    ensures FieldValue("Abundant Step")
    ensures WellFormed(Acquired(["Automatic"]))
    ensures Meaning(Acquired(["Automatic"])) == Acquire(true)
  {
    AutomaticLine();
  }

  /** The lines of the record ask for the name and the automatic flag. */
  lemma AbundantStepMeanings(description: string, classList: string, level: string, icon: string)
    requires NoLineBreak(description) && NoLineBreak(classList) && NoLineBreak(level) && NoLineBreak(icon)
    ensures var ls := AbundantStep(description, classList, level, icon);
      && (forall i :: 0 <= i < |ls| ==> WellFormed(ls[i]))
      && Meanings(ls) == [SetName("Abundant Step"), NoEffect, NoEffect, NoEffect, Acquire(true), NoEffect]
  {
    IgnoredKeys();
    AbundantStepLines();
  }

  lemma AbundantStepApplied()
    ensures ApplyAll(EmptyFeat, [SetName("Abundant Step"), NoEffect, NoEffect, NoEffect, Acquire(true), NoEffect])
      == Ok(Feat(Some("Abundant Step"), None, [], [], true))
  {
  }

  /** test_parse_name: the record parses, its full name is
      "Abundant Step", and its ACQUIRE line makes it automatic. */
  lemma TestParseName(description: string, classList: string, level: string, icon: string)
    requires NoLineBreak(description) && NoLineBreak(classList) && NoLineBreak(level) && NoLineBreak(icon)
    ensures var r := FromText(RecordText(AbundantStep(description, classList, level, icon)));
      && r.Ok?
      && FullName(r.value) == Some("Abundant Step")
      && r.value.automatic
  {
    var ls := AbundantStep(description, classList, level, icon);
    AbundantStepMeanings(description, classList, level, icon);
    RecordReadBack(ls);
    AbundantStepApplied();
  }

  // ---------------------------------------------------------------------
  // test_parse_parentheading

  /** The record of test_parse_parentheading. */
  function BludgeoningFocus(
    description: string, tag: string, classList: string, level: string, icon: string, verified: string): seq<Line>
  {
    [ Headed("Greater Weapon Focus"),
      Named("Bludgeoning Weapons"),
      Other("FEATDESCRIPTION", description),
      Other("FEATTAG", tag),
      Other("CLASSLIST", classList),
      Other("LEVEL", level),
      Acquired(["Train"]),
      NeedsAll([Dependency("Feat", "Weapon Focus: Bludgeoning Weapons")]),
      Other("ICON", icon),
      Other("VERIFIED", verified) ]
  }

  /** Its NEEDSALL line is the test's. */
  lemma BludgeoningFocusNeeds()
    ensures LineText(NeedsAll([Dependency("Feat", "Weapon Focus: Bludgeoning Weapons")]))
      == "NEEDSALL: " + ("Feat " + "Weapon Focus: Bludgeoning Weapons") + ";"
  {
    NeedsOneText(Dependency("Feat", "Weapon Focus: Bludgeoning Weapons"));
    FeatToken("Weapon Focus: Bludgeoning Weapons");
  }

  lemma BludgeoningFocusLines()
    ensures FieldValue("Greater Weapon Focus") && FieldValue("Bludgeoning Weapons")
    ensures WellFormed(Acquired(["Train"]))
    ensures Meaning(Acquired(["Train"])) == Acquire(false)
    ensures WellFormed(NeedsAll([Dependency("Feat", "Weapon Focus: Bludgeoning Weapons")]))
  {
    TrainLine();
    BludgeoningFocusNaming();
    assert Writable(Dependency("Feat", "Weapon Focus: Bludgeoning Weapons")) by {
      BludgeoningFocusTarget();
    }
  }

  lemma BludgeoningFocusNaming()
    ensures FieldValue("Greater Weapon Focus") && FieldValue("Bludgeoning Weapons")
  {
  }

  lemma BludgeoningFocusTarget()
    ensures WritableToken("Weapon Focus: Bludgeoning Weapons")
  {
  }

  /** The lines of the record ask for the heading, the name and one
      required feat; ACQUIRE: Train asks for nothing. */
  lemma BludgeoningFocusMeanings(
    description: string, tag: string, classList: string, level: string, icon: string, verified: string)
    requires NoLineBreak(description) && NoLineBreak(tag) && NoLineBreak(classList)
    requires NoLineBreak(level) && NoLineBreak(icon) && NoLineBreak(verified)
    ensures var ls := BludgeoningFocus(description, tag, classList, level, icon, verified);
      && (forall i :: 0 <= i < |ls| ==> WellFormed(ls[i]))
      && Meanings(ls) == [
        SetHeading("Greater Weapon Focus"), SetName("Bludgeoning Weapons"),
        NoEffect, NoEffect, NoEffect, NoEffect,
        Acquire(false), Require(Ok([Dependency("Feat", "Weapon Focus: Bludgeoning Weapons")])),
        NoEffect, NoEffect]
  {
    IgnoredKeys();
    BludgeoningFocusLines();
  }

  lemma BludgeoningFocusApplied()
    ensures ApplyAll(EmptyFeat, [
        SetHeading("Greater Weapon Focus"), SetName("Bludgeoning Weapons"),
        NoEffect, NoEffect, NoEffect, NoEffect,
        Acquire(false), Require(Ok([Dependency("Feat", "Weapon Focus: Bludgeoning Weapons")])),
        NoEffect, NoEffect])
      == Ok(Feat(Some("Bludgeoning Weapons"), Some("Greater Weapon Focus"),
                 [Dependency("Feat", "Weapon Focus: Bludgeoning Weapons")], [], false))
  {
    assert [] + [Dependency("Feat", "Weapon Focus: Bludgeoning Weapons")]
      == [Dependency("Feat", "Weapon Focus: Bludgeoning Weapons")];
  }

  lemma BludgeoningFocusFullName()
    ensures FullName(Feat(Some("Bludgeoning Weapons"), Some("Greater Weapon Focus"),
                          [Dependency("Feat", "Weapon Focus: Bludgeoning Weapons")], [], false))
      == Some("Greater Weapon Focus: Bludgeoning Weapons")
  {
    assert "Greater Weapon Focus" + ": " == "Greater Weapon Focus: ";
    assert "Greater Weapon Focus: " + "Bludgeoning Weapons" == "Greater Weapon Focus: Bludgeoning Weapons";
  }

  /** test_parse_parentheading: the record parses, its full name is
      "Greater Weapon Focus: Bludgeoning Weapons", its one required
      prerequisite is the feat "Weapon Focus: Bludgeoning Weapons", and
      ACQUIRE: Train leaves it not automatic. */
  lemma TestParseParentHeading(
    description: string, tag: string, classList: string, level: string, icon: string, verified: string)
    requires NoLineBreak(description) && NoLineBreak(tag) && NoLineBreak(classList)
    requires NoLineBreak(level) && NoLineBreak(icon) && NoLineBreak(verified)
    ensures var r := FromText(RecordText(BludgeoningFocus(description, tag, classList, level, icon, verified)));
      && r.Ok?
      && FullName(r.value) == Some("Greater Weapon Focus: Bludgeoning Weapons")
      && r.value.deps == [Dependency("Feat", "Weapon Focus: Bludgeoning Weapons")]
      && !r.value.automatic
  {
    var ls := BludgeoningFocus(description, tag, classList, level, icon, verified);
    BludgeoningFocusMeanings(description, tag, classList, level, icon, verified);
    RecordReadBack(ls);
    BludgeoningFocusApplied();
    BludgeoningFocusFullName();
  }

  // ---------------------------------------------------------------------
  // test_parse_dependencies, first record

  /** The prerequisites of Greater Two Weapon Fighting: an ability score,
      a base attack bonus and one feat. */
  function TwoWeaponNeeds(): seq<Dependency> {
    [ Dependency("Ability", "Dexterity 17"),
      Dependency("BAB", "11"),
      Dependency("Feat", "Improved Two Weapon Fighting") ]
  }

  /** Its fourteen ACQUIRE tokens, one per class of its class list: the
      seventh is AutoNoPrereq, every other one Train. */
  function TwoWeaponAcquire(): seq<string> {
    seq(14, i => if i == 6 then "AutoNoPrereq" else "Train")
  }

  /** The first record of test_parse_dependencies. */
  function TwoWeaponFighting(
    description: string, tag: string, classList: string, level: string, icon: string, verified: string): seq<Line>
  {
    [ Named("Greater Two Weapon Fighting"),
      Other("FEATDESCRIPTION", description),
      Other("FEATTAG", tag),
      Other("CLASSLIST", classList),
      Other("LEVEL", level),
      Acquired(TwoWeaponAcquire()),
      NeedsAll(TwoWeaponNeeds()),
      Other("ICON", icon),
      Other("VERIFIED", verified) ]
  }

  /** Its NEEDSALL line is the test's. */
  lemma TwoWeaponNeedsText()
    ensures LineText(NeedsAll(TwoWeaponNeeds()))
      == "NEEDSALL: " + ("Ability Dexterity 17" + ", " + "BAB 11" + ", " + ("Feat " + "Improved Two Weapon Fighting")) + ";"
  {
    NeedsText(TwoWeaponNeeds());
    ThreeDependenciesText(TwoWeaponNeeds()[0], TwoWeaponNeeds()[1], TwoWeaponNeeds()[2]);
    TwoWeaponScoreTokens();
    FeatToken("Improved Two Weapon Fighting");
  }

  /** The tokens of TwoWeaponAcquire from index k on. */
  lemma TokensFrom(ts: seq<string>, k: nat)
    requires ts == TwoWeaponAcquire() && k < 13
    ensures CommaText(ts[k..]) == (if k == 6 then "AutoNoPrereq" else "Train") + ", " + CommaText(ts[k + 1..])
  {
    assert ts[k..] == [ts[k]] + ts[k + 1..];
    CommaTextCons(ts[k], ts[k + 1..]);
  }

  /** Its ACQUIRE line is the test's: the fourteen tokens, each but the
      last followed by ", ". */
  lemma TwoWeaponAcquireText()
    ensures LineText(Acquired(TwoWeaponAcquire())) == "ACQUIRE: " + ("Train" + ", " + ("Train" + ", " + ("Train" + ", " + ("Train" + ", " + ("Train" + ", " + ("Train" + ", " + ("AutoNoPrereq" + ", " + ("Train" + ", " + ("Train" + ", " + ("Train" + ", " + ("Train" + ", " + ("Train" + ", " + ("Train" + ", " + ("Train")))))))))))))) + ";"
  {
    var ts := TwoWeaponAcquire();
    AcquireText(ts);
    TwoWeaponAcquireTail();
    assert CommaText(ts[5..]) == "Train" + ", " + CommaText(ts[6..]) by {
      TokensFrom(ts, 5);
    }
    assert CommaText(ts[4..]) == "Train" + ", " + CommaText(ts[5..]) by {
      TokensFrom(ts, 4);
    }
    assert CommaText(ts[3..]) == "Train" + ", " + CommaText(ts[4..]) by {
      TokensFrom(ts, 3);
    }
    assert CommaText(ts[2..]) == "Train" + ", " + CommaText(ts[3..]) by {
      TokensFrom(ts, 2);
    }
    assert CommaText(ts[1..]) == "Train" + ", " + CommaText(ts[2..]) by {
      TokensFrom(ts, 1);
    }
    assert CommaText(ts[0..]) == "Train" + ", " + CommaText(ts[1..]) by {
      TokensFrom(ts, 0);
    }
    WholeSuffix(ts);
  }

  /** The written list from the AutoNoPrereq token on. */
  lemma TwoWeaponAcquireTail()
    ensures CommaText(TwoWeaponAcquire()[6..]) == "AutoNoPrereq" + ", " + ("Train" + ", " + ("Train" + ", " + ("Train" + ", " + ("Train" + ", " + ("Train" + ", " + ("Train" + ", " + ("Train")))))))
  {
    var ts := TwoWeaponAcquire();
    assert CommaText(ts[13..]) == "Train" by {
      assert ts[13..] == [ts[13]];
      CommaTextSingle(ts[13]);
    }
    assert CommaText(ts[12..]) == "Train" + ", " + CommaText(ts[13..]) by {
      TokensFrom(ts, 12);
    }
    assert CommaText(ts[11..]) == "Train" + ", " + CommaText(ts[12..]) by {
      TokensFrom(ts, 11);
    }
    assert CommaText(ts[10..]) == "Train" + ", " + CommaText(ts[11..]) by {
      TokensFrom(ts, 10);
    }
    assert CommaText(ts[9..]) == "Train" + ", " + CommaText(ts[10..]) by {
      TokensFrom(ts, 9);
    }
    assert CommaText(ts[8..]) == "Train" + ", " + CommaText(ts[9..]) by {
      TokensFrom(ts, 8);
    }
    assert CommaText(ts[7..]) == "Train" + ", " + CommaText(ts[8..]) by {
      TokensFrom(ts, 7);
    }
    assert CommaText(ts[6..]) == "AutoNoPrereq" + ", " + CommaText(ts[7..]) by {
      TokensFrom(ts, 6);
    }
  }

  lemma WholeSuffix(ts: seq<string>)
    ensures ts[0..] == ts
  {
  }

  lemma TwoWeaponScoreTokens()
    ensures DependencyToken(Dependency("Ability", "Dexterity 17")) == "Ability Dexterity 17"
    ensures DependencyToken(Dependency("BAB", "11")) == "BAB 11"
  {
    assert "Ability" + " " == "Ability ";
    assert "Ability " + "Dexterity 17" == "Ability Dexterity 17";
    assert "BAB" + " " == "BAB ";
    assert "BAB " + "11" == "BAB 11";
  }

  lemma TwoWeaponNaming()
    ensures FieldValue("Greater Two Weapon Fighting")
  {
  }

  lemma TwoWeaponAcquireLine()
    ensures WellFormed(Acquired(TwoWeaponAcquire()))
    ensures Meaning(Acquired(TwoWeaponAcquire())) == Acquire(false)
  {
    TrainedLine(TwoWeaponAcquire());
  }

  lemma TwoWeaponWritable()
    ensures forall i :: 0 <= i < |TwoWeaponNeeds()| ==> Writable(TwoWeaponNeeds()[i])
  {
    TwoWeaponScoresWritable();
    TwoWeaponTargetWritable();
    FeatPrerequisite("Improved Two Weapon Fighting");
  }

  lemma TwoWeaponScoresWritable()
    ensures Writable(Dependency("Ability", "Dexterity 17")) && Writable(Dependency("BAB", "11"))
  {
  }

  lemma TwoWeaponTargetWritable()
    ensures WritableToken("Improved Two Weapon Fighting")
  {
  }

  lemma TwoWeaponMeanings(
    description: string, tag: string, classList: string, level: string, icon: string, verified: string)
    requires NoLineBreak(description) && NoLineBreak(tag) && NoLineBreak(classList)
    requires NoLineBreak(level) && NoLineBreak(icon) && NoLineBreak(verified)
    ensures var ls := TwoWeaponFighting(description, tag, classList, level, icon, verified);
      && (forall i :: 0 <= i < |ls| ==> WellFormed(ls[i]))
      && Meanings(ls) == [
        SetName("Greater Two Weapon Fighting"), NoEffect, NoEffect, NoEffect, NoEffect,
        Acquire(false), Require(Ok(TwoWeaponNeeds())), NoEffect, NoEffect]
  {
    TwoWeaponWellFormed(description, tag, classList, level, icon, verified);
    TwoWeaponDirectives(description, tag, classList, level, icon, verified);
  }

  lemma TwoWeaponWellFormed(
    description: string, tag: string, classList: string, level: string, icon: string, verified: string)
    requires NoLineBreak(description) && NoLineBreak(tag) && NoLineBreak(classList)
    requires NoLineBreak(level) && NoLineBreak(icon) && NoLineBreak(verified)
    ensures var ls := TwoWeaponFighting(description, tag, classList, level, icon, verified);
      forall i :: 0 <= i < |ls| ==> WellFormed(ls[i])
  {
    var ls := TwoWeaponFighting(description, tag, classList, level, icon, verified);
    IgnoredKeys();
    forall i | 0 <= i < |ls|
      ensures WellFormed(ls[i])
    {
      if i == 0 {
        TwoWeaponNaming();
      } else if i == 5 {
        TwoWeaponAcquireLine();
      } else if i == 6 {
        TwoWeaponWritable();
      }
    }
  }

  lemma TwoWeaponDirectives(
    description: string, tag: string, classList: string, level: string, icon: string, verified: string)
    ensures Meanings(TwoWeaponFighting(description, tag, classList, level, icon, verified)) == [
        SetName("Greater Two Weapon Fighting"), NoEffect, NoEffect, NoEffect, NoEffect,
        Acquire(false), Require(Ok(TwoWeaponNeeds())), NoEffect, NoEffect]
  {
    var ls := TwoWeaponFighting(description, tag, classList, level, icon, verified);
    var ms := [
        SetName("Greater Two Weapon Fighting"), NoEffect, NoEffect, NoEffect, NoEffect,
        Acquire(false), Require(Ok(TwoWeaponNeeds())), NoEffect, NoEffect];
    forall i | 0 <= i < |ls|
      ensures Meaning(ls[i]) == ms[i]
    {
      if i == 5 {
        TwoWeaponAcquireLine();
      }
    }
    assert Meanings(ls) == ms;
  }

  lemma TwoWeaponApplied()
    ensures ApplyAll(EmptyFeat, [
        SetName("Greater Two Weapon Fighting"), NoEffect, NoEffect, NoEffect, NoEffect,
        Acquire(false), Require(Ok(TwoWeaponNeeds())), NoEffect, NoEffect])
      == Ok(Feat(Some("Greater Two Weapon Fighting"), None, TwoWeaponNeeds(), [], false))
  {
    assert [] + TwoWeaponNeeds() == TwoWeaponNeeds();
  }

  lemma TwoWeaponFeatDeps()
    ensures FeatTargets(TwoWeaponNeeds()) == ["Improved Two Weapon Fighting"]
  {
    FeatTargetsNoFeats(TwoWeaponNeeds()[..2]);
    FeatTargetsAllFeats(TwoWeaponNeeds()[2..]);
    FeatTargetsAppend(TwoWeaponNeeds()[..2], TwoWeaponNeeds()[2..]);
    assert TwoWeaponNeeds()[..2] + TwoWeaponNeeds()[2..] == TwoWeaponNeeds();
  }

  /** test_parse_dependencies, first record: of an ability score, a base
      attack bonus and a feat, only the feat is a feat dependency. */
  lemma TestParseDependenciesKinds(
    description: string, tag: string, classList: string, level: string, icon: string, verified: string)
    requires NoLineBreak(description) && NoLineBreak(tag) && NoLineBreak(classList)
    requires NoLineBreak(level) && NoLineBreak(icon) && NoLineBreak(verified)
    ensures var r := FromText(RecordText(TwoWeaponFighting(description, tag, classList, level, icon, verified)));
      && r.Ok?
      && FeatDeps(r.value) == ["Improved Two Weapon Fighting"]
      && r.value.deps == TwoWeaponNeeds()
      && !r.value.automatic
  {
    var ls := TwoWeaponFighting(description, tag, classList, level, icon, verified);
    TwoWeaponMeanings(description, tag, classList, level, icon, verified);
    RecordReadBack(ls);
    TwoWeaponApplied();
    TwoWeaponFeatDeps();
  }

  // ---------------------------------------------------------------------
  // test_parse_dependencies, second record

  /** The prerequisites of Greater Weapon Specialization: Slashing Weapons:
      two feats whose names hold a colon. */
  function SlashingNeeds(): seq<Dependency> {
    [ Dependency("Feat", "Weapon Focus: Slashing Weapons"),
      Dependency("Feat", "Weapon Specialization: Slashing Weapons") ]
  }

  /** The second record of test_parse_dependencies. */
  function SlashingSpecialization(
    description: string, tag: string, classList: string, level: string, icon: string, verified: string): seq<Line>
  {
    [ Headed("Greater Weapon Specialization"),
      Named("Slashing Weapons"),
      Other("FEATDESCRIPTION", description),
      Other("FEATTAG", tag),
      Other("CLASSLIST", classList),
      Other("LEVEL", level),
      Acquired(["Train"]),
      NeedsAll(SlashingNeeds()),
      Other("ICON", icon),
      Other("VERIFIED", verified) ]
  }

  /** Its NEEDSALL line is the test's. */
  lemma SlashingNeedsText()
    ensures LineText(NeedsAll(SlashingNeeds()))
      == "NEEDSALL: "
         + (("Feat " + "Weapon Focus: Slashing Weapons") + ", " + ("Feat " + "Weapon Specialization: Slashing Weapons"))
         + ";"
  {
    NeedsText(SlashingNeeds());
    TwoDependenciesText(SlashingNeeds()[0], SlashingNeeds()[1]);
    FeatToken("Weapon Focus: Slashing Weapons");
    FeatToken("Weapon Specialization: Slashing Weapons");
  }

  lemma SlashingLines()
    ensures FieldValue("Greater Weapon Specialization") && FieldValue("Slashing Weapons")
    ensures WellFormed(NeedsAll(SlashingNeeds()))
  {
    SlashingNaming();
    SlashingWritable();
  }

  lemma SlashingNaming()
    ensures FieldValue("Greater Weapon Specialization") && FieldValue("Slashing Weapons")
  {
  }

  lemma SlashingWritable()
    ensures forall i :: 0 <= i < |SlashingNeeds()| ==> Writable(SlashingNeeds()[i])
  {
    SlashingTargetsWritable();
    FeatPrerequisite("Weapon Focus: Slashing Weapons");
    FeatPrerequisite("Weapon Specialization: Slashing Weapons");
  }

  lemma SlashingTargetsWritable()
    ensures WritableToken("Weapon Focus: Slashing Weapons")
    ensures WritableToken("Weapon Specialization: Slashing Weapons")
  {
    SlashingFocusWritable();
  }

  lemma SlashingFocusWritable()
    ensures WritableToken("Weapon Focus: Slashing Weapons")
  {
  }

  lemma SlashingMeanings(
    description: string, tag: string, classList: string, level: string, icon: string, verified: string)
    requires NoLineBreak(description) && NoLineBreak(tag) && NoLineBreak(classList)
    requires NoLineBreak(level) && NoLineBreak(icon) && NoLineBreak(verified)
    ensures var ls := SlashingSpecialization(description, tag, classList, level, icon, verified);
      && (forall i :: 0 <= i < |ls| ==> WellFormed(ls[i]))
      && Meanings(ls) == [
        SetHeading("Greater Weapon Specialization"), SetName("Slashing Weapons"),
        NoEffect, NoEffect, NoEffect, NoEffect,
        Acquire(false), Require(Ok(SlashingNeeds())), NoEffect, NoEffect]
  {
    IgnoredKeys();
    TrainLine();
    SlashingLines();
  }

  lemma SlashingApplied()
    ensures ApplyAll(EmptyFeat, [
        SetHeading("Greater Weapon Specialization"), SetName("Slashing Weapons"),
        NoEffect, NoEffect, NoEffect, NoEffect,
        Acquire(false), Require(Ok(SlashingNeeds())), NoEffect, NoEffect])
      == Ok(Feat(Some("Slashing Weapons"), Some("Greater Weapon Specialization"), SlashingNeeds(), [], false))
  {
    assert [] + SlashingNeeds() == SlashingNeeds();
  }

  lemma SlashingFeatDeps()
    ensures FeatTargets(SlashingNeeds())
      == ["Weapon Focus: Slashing Weapons", "Weapon Specialization: Slashing Weapons"]
  {
    FeatTargetsAllFeats(SlashingNeeds());
  }

  /** test_parse_dependencies, second record: a feat name holding a colon
      stays whole, since a prerequisite splits at its first space. */
  lemma TestParseDependenciesColons(
    description: string, tag: string, classList: string, level: string, icon: string, verified: string)
    requires NoLineBreak(description) && NoLineBreak(tag) && NoLineBreak(classList)
    requires NoLineBreak(level) && NoLineBreak(icon) && NoLineBreak(verified)
    ensures var r := FromText(RecordText(SlashingSpecialization(description, tag, classList, level, icon, verified)));
      && r.Ok?
      && FeatDeps(r.value) == ["Weapon Focus: Slashing Weapons", "Weapon Specialization: Slashing Weapons"]
  {
    var ls := SlashingSpecialization(description, tag, classList, level, icon, verified);
    SlashingMeanings(description, tag, classList, level, icon, verified);
    RecordReadBack(ls);
    SlashingApplied();
    SlashingFeatDeps();
  }

  // ---------------------------------------------------------------------
  // test_parse_dependencies, third record

  /** The alternative prerequisites of Trapmaking: three feats. */
  function TrapmakingAlternatives(): seq<Dependency> {
    [ Dependency("Feat", "Skill Focus: Disable Device"),
      Dependency("Feat", "Nimble Fingers"),
      Dependency("Feat", "Least Dragonmark of Making") ]
  }

  /** The third record of test_parse_dependencies. */
  function Trapmaking(description: string, classList: string, level: string, icon: string, verified: string): seq<Line>
  {
    [ Named("Trapmaking"),
      Other("FEATDESCRIPTION", description),
      Other("CLASSLIST", classList),
      Other("LEVEL", level),
      Acquired(["Train", "AutoNoPrereq", "AutoNoPrereq"]),
      NeedsAll([Dependency("Feat", "Trapfinding")]),
      NeedsOne(TrapmakingAlternatives()),
      Other("ICON", icon),
      Other("VERIFIED", verified) ]
  }

  /** Its NEEDSALL and NEEDSONE lines are the test's. */
  lemma TrapmakingNeedsText()
    ensures LineText(NeedsAll([Dependency("Feat", "Trapfinding")])) == "NEEDSALL: " + ("Feat " + "Trapfinding") + ";"
  {
    NeedsOneText(Dependency("Feat", "Trapfinding"));
    FeatToken("Trapfinding");
  }

  lemma TrapmakingAlternativesText()
    ensures LineText(NeedsOne(TrapmakingAlternatives()))
      == "NEEDSONE: "
         + (("Feat " + "Skill Focus: Disable Device") + ", " + ("Feat " + "Nimble Fingers") + ", "
            + ("Feat " + "Least Dragonmark of Making"))
         + ";"
  {
    var ds := TrapmakingAlternatives();
    NeedsText(ds);
    ThreeDependenciesText(ds[0], ds[1], ds[2]);
    FeatToken("Skill Focus: Disable Device");
    FeatToken("Nimble Fingers");
    FeatToken("Least Dragonmark of Making");
  }

  /** Its ACQUIRE line is the test's. */
  lemma TrapmakingAcquireText()
    ensures LineText(Acquired(["Train", "AutoNoPrereq", "AutoNoPrereq"]))
      == "ACQUIRE: " + ("Train" + ", " + ("AutoNoPrereq" + ", " + "AutoNoPrereq")) + ";"
  {
    AcquireText(["Train", "AutoNoPrereq", "AutoNoPrereq"]);
    ThreeTokensText("Train", "AutoNoPrereq", "AutoNoPrereq");
  }

  lemma TrapmakingLines()
    ensures FieldValue("Trapmaking")
    ensures WellFormed(Acquired(["Train", "AutoNoPrereq", "AutoNoPrereq"]))
    ensures Meaning(Acquired(["Train", "AutoNoPrereq", "AutoNoPrereq"])) == Acquire(false)
    ensures WellFormed(NeedsAll([Dependency("Feat", "Trapfinding")]))
    ensures WellFormed(NeedsOne(TrapmakingAlternatives()))
  {
    TrapmakingAcquireLine();
    TrapfindingLine();
    TrapmakingWritable();
  }

  lemma TrapmakingAcquireLine()
    ensures WellFormed(Acquired(["Train", "AutoNoPrereq", "AutoNoPrereq"]))
    ensures Meaning(Acquired(["Train", "AutoNoPrereq", "AutoNoPrereq"])) == Acquire(false)
  {
    TrainedLine(["Train", "AutoNoPrereq", "AutoNoPrereq"]);
  }

  lemma TrapfindingLine()
    ensures FieldValue("Trapmaking")
    ensures WellFormed(NeedsAll([Dependency("Feat", "Trapfinding")]))
  {
    assert WritableToken("Trapfinding");
    FeatPrerequisite("Trapfinding");
  }

  lemma TrapmakingWritable()
    ensures forall i :: 0 <= i < |TrapmakingAlternatives()| ==> Writable(TrapmakingAlternatives()[i])
  {
    TrapmakingTargetsWritable();
    DragonmarkWritable();
    FeatPrerequisite("Skill Focus: Disable Device");
    FeatPrerequisite("Nimble Fingers");
    FeatPrerequisite("Least Dragonmark of Making");
  }

  lemma TrapmakingTargetsWritable()
    ensures WritableToken("Skill Focus: Disable Device") && WritableToken("Nimble Fingers")
  {
  }

  lemma DragonmarkWritable()
    ensures WritableToken("Least Dragonmark of Making")
  {
  }

  lemma TrapmakingMeanings(description: string, classList: string, level: string, icon: string, verified: string)
    requires NoLineBreak(description) && NoLineBreak(classList)
    requires NoLineBreak(level) && NoLineBreak(icon) && NoLineBreak(verified)
    ensures var ls := Trapmaking(description, classList, level, icon, verified);
      && (forall i :: 0 <= i < |ls| ==> WellFormed(ls[i]))
      && Meanings(ls) == [
        SetName("Trapmaking"), NoEffect, NoEffect, NoEffect, Acquire(false),
        Require(Ok([Dependency("Feat", "Trapfinding")])), Alternatives(Ok(TrapmakingAlternatives())),
        NoEffect, NoEffect]
  {
    var ls := Trapmaking(description, classList, level, icon, verified);
    var ms := [
        SetName("Trapmaking"), NoEffect, NoEffect, NoEffect, Acquire(false),
        Require(Ok([Dependency("Feat", "Trapfinding")])), Alternatives(Ok(TrapmakingAlternatives())),
        NoEffect, NoEffect];
    IgnoredKeys();
    forall i | 0 <= i < |ls|
      ensures WellFormed(ls[i]) && Meaning(ls[i]) == ms[i]
    {
      if i == 0 || i == 5 {
        TrapfindingLine();
      } else if i == 4 {
        TrapmakingAcquireLine();
      } else if i == 6 {
        TrapmakingWritable();
      }
    }
    assert Meanings(ls) == ms;
  }

  lemma TrapmakingApplied()
    ensures ApplyAll(EmptyFeat, [
        SetName("Trapmaking"), NoEffect, NoEffect, NoEffect, Acquire(false),
        Require(Ok([Dependency("Feat", "Trapfinding")])), Alternatives(Ok(TrapmakingAlternatives())),
        NoEffect, NoEffect])
      == Ok(Feat(Some("Trapmaking"), None, [Dependency("Feat", "Trapfinding")], TrapmakingAlternatives(), false))
  {
    assert [] + [Dependency("Feat", "Trapfinding")] == [Dependency("Feat", "Trapfinding")];
    assert [] + TrapmakingAlternatives() == TrapmakingAlternatives();
  }

  /** test_parse_dependencies, third record: NEEDSONE fills the
      alternatives, in order, apart from the NEEDSALL prerequisite. */
  lemma TestParseDependenciesAlternatives(
    description: string, classList: string, level: string, icon: string, verified: string)
    requires NoLineBreak(description) && NoLineBreak(classList)
    requires NoLineBreak(level) && NoLineBreak(icon) && NoLineBreak(verified)
    ensures var r := FromText(RecordText(Trapmaking(description, classList, level, icon, verified)));
      && r.Ok?
      && |r.value.orDeps| == 3
      && r.value.orDeps[0].target == "Skill Focus: Disable Device"
      && r.value.orDeps[1].target == "Nimble Fingers"
      && r.value.orDeps[2].target == "Least Dragonmark of Making"
      && r.value.deps == [Dependency("Feat", "Trapfinding")]
  {
    var ls := Trapmaking(description, classList, level, icon, verified);
    TrapmakingMeanings(description, classList, level, icon, verified);
    RecordReadBack(ls);
    TrapmakingApplied();
  }

  // ---------------------------------------------------------------------
  // Two edge cases beside the test suite

  /** A NEEDSALL prerequisite without a space between kind and target:
      the line asks for the parse error, so a record holding it fails. */
  lemma PrerequisiteWithoutKind(t: string)
    requires WritableToken(t) && ' ' !in t
    ensures LineDirective(Field(NeedsAllKey, t)) == Require(Err(MissingKindSeparator(t)))
    ensures FromText(Field(NeedsAllKey, t) + "\n") == Err(MissingKindSeparator(t))
  {
    var line := Field(NeedsAllKey, t);
    var e := MissingKindSeparator(t);
    assert NoLineBreak(line) && LineDirective(line) == Require(Err(e)) by {
      KindlessLine(t);
    }
    assert SplitLines(line + "\n") == [line] by {
      SplitLinesTerminated([line]);
      assert Terminated([line]) == line + "\n";
    }
    assert Directives([line]) == [Require(Err(e))];
    RequireErrorStops(e);
  }

  /** A NEEDSALL that fails to parse fails the record. */
  lemma RequireErrorStops(e: ParseError)
    ensures ApplyAll(EmptyFeat, [Require(Err(e))]) == Err(e)
  {
    assert Apply(EmptyFeat, Require(Err(e))) == Err(e);
  }

  lemma KindlessLine(t: string)
    requires WritableToken(t) && ' ' !in t
    ensures NoLineBreak(Field(NeedsAllKey, t))
    ensures LineDirective(Field(NeedsAllKey, t)) == Require(Err(MissingKindSeparator(t)))
  {
    SingleToken(t);
    KnownKeys();
    KeyedLine(NeedsAllKey, t);
    NeedsEntries(t);
    assert ParseAll([t]) == Err(MissingKindSeparator(t));
  }

  /** A writable token is a value whose list is the token alone. */
  lemma SingleToken(t: string)
    requires WritableToken(t)
    ensures FieldValue(t) && DepList(t) == [t]
  {
    assert CommaText([t]) == t by {
      assert SpacedParts([t]) == [t];
    }
    CommaTextTokens([t]);
    CommaTextValue([t]);
  }

  /** A space before the final ';' of a name stays in the name: a line
      "FEATNAME: r ;" names the feat r followed by a space. */
  lemma NameKeepsSpaceBeforeSemicolon(r: string)
    requires r != [] && !IsWhitespace(r[0])
    ensures LineDirective(FeatNameKey + ":" + " " + r + " ;") == SetName(r + " ")
  {
    assert FeatNameKey + ":" + " " + r + " ;" == FeatNameKey + ":" + (" " + r + " ;");
    EntryOfKeyValue(FeatNameKey, " " + r + " ;");
    CleanValueKeepsSpaceBeforeSemicolon(r);
  }
}
