/** The document-category classifier of the ingestion script: a filename is
    lowercased and tested for keywords in a fixed order, first match wins. */
module Classifier {

  /** The eight categories a source file can be given. */
  datatype DocType =
    | Ci3Documentation
    | Ci4Documentation
    | UpgradeGuide
    | ModelDocs
    | ViewDocs
    | HelperDocs
    | LibraryDocs
    | General

  /** The string the script stores under the `doc_type` metadata key. */
  function Label(d: DocType): string {
    match d
    case Ci3Documentation => "ci3_documentation"
    case Ci4Documentation => "ci4_documentation"
    case UpgradeGuide => "upgrade_guide"
    case ModelDocs => "model_docs"
    case ViewDocs => "view_docs"
    case HelperDocs => "helper_docs"
    case LibraryDocs => "library_docs"
    case General => "general"
  }

  const AllLabels: set<string> := {
    "ci3_documentation", "ci4_documentation", "upgrade_guide", "model_docs",
    "view_docs", "helper_docs", "library_docs", "general"
  }

  // ---------------------------------------------------------------------
  // Lowercasing and substring search

  function LowerChar(c: char): char {
    if 'A' <= c <= 'Z' then (c as int + 32) as char else c
  }

  /** The lowercased name: every character mapped through LowerChar. */
  function LowerStr(s: string): (r: string)
    ensures |r| == |s|
    ensures forall i :: 0 <= i < |s| ==> r[i] == LowerChar(s[i])
  {
    if s == [] then [] else [LowerChar(s[0])] + LowerStr(s[1..])
  }

  /** A name without upper-case letters is its own lowercase form. */
  lemma LowerOfLower(s: string)
    requires forall i :: 0 <= i < |s| ==> LowerChar(s[i]) == s[i]
    ensures LowerStr(s) == s
  {
  }

  /** Two names that differ only in the case of their letters. */
  ghost predicate EqualIgnoringCase(a: string, b: string) {
    |a| == |b| && forall i :: 0 <= i < |a| ==> LowerChar(a[i]) == LowerChar(b[i])
  }

  /** `pat` starts `s`. */
  predicate StartsWith(s: string, pat: string) {
    |pat| <= |s| && s[..|pat|] == pat
  }

  /** The substring test `pat in s`, as a left-to-right scan: true exactly
      when `pat` appears at some position of `s`. */
  function Contains(s: string, pat: string): (r: bool)
    ensures r <==> Occurs(s, pat)
    decreases |s|
  {
    if StartsWith(s, pat) then
      assert MatchAt(s, pat, 0);
      true
    else if s == [] then
      assert !MatchAt(s, pat, 0);
      false
    else
      OccursStep(s, pat);
      Contains(s[1..], pat)
  }

  /** `pat` appears in `s` beginning at position `i`. */
  ghost predicate MatchAt(s: string, pat: string, i: int) {
    0 <= i && i + |pat| <= |s| && s[i..i + |pat|] == pat
  }

  /** Reference meaning of `pat in s`: `pat` appears at some position. */
  ghost predicate Occurs(s: string, pat: string) {
    exists i :: MatchAt(s, pat, i)
  }

  /** When `pat` does not start the non-empty `s`, it occurs in `s` exactly
      when it occurs in the tail of `s`. */
  lemma OccursStep(s: string, pat: string)
    requires s != [] && !StartsWith(s, pat)
    ensures Occurs(s, pat) <==> Occurs(s[1..], pat)
  {
    if Occurs(s, pat) {
      var i :| MatchAt(s, pat, i);
      assert i != 0;
      assert s[1..][i - 1..i - 1 + |pat|] == s[i..i + |pat|];
      assert MatchAt(s[1..], pat, i - 1);
    }
    if Occurs(s[1..], pat) {
      var i :| MatchAt(s[1..], pat, i);
      assert s[1..][i..i + |pat|] == s[i + 1..i + 1 + |pat|];
      assert MatchAt(s, pat, i + 1);
    }
  }

  // ---------------------------------------------------------------------
  // The classifier

  /** The category of a file, from its name alone: the first category, in
      priority order, whose rule holds of the lowercased name. */
  function IdentifyDocType(filename: string): (r: DocType)
    ensures FirstMatch(r, LowerStr(filename))
  {
    var low := LowerStr(filename);
    if Contains(low, "ci3") && !Contains(low, "ci4") then Ci3Documentation
    else if Contains(low, "ci4") then Ci4Documentation
    else if Contains(low, "upgrade") || Contains(low, "migration") then UpgradeGuide
    else if Contains(low, "model") then ModelDocs
    else if Contains(low, "view") then ViewDocs
    else if Contains(low, "helper") then HelperDocs
    else if Contains(low, "library") || Contains(low, "lib") then LibraryDocs
    else General
  }

  /** Position of each category's rule in the priority order. */
  function Rank(d: DocType): nat {
    match d
    case Ci3Documentation => 0
    case Ci4Documentation => 1
    case UpgradeGuide => 2
    case ModelDocs => 3
    case ViewDocs => 4
    case HelperDocs => 5
    case LibraryDocs => 6
    case General => 7
  }

  /** The rule for category `d`, stated on a lowercased name with the
      reference substring meaning. */
  ghost predicate RuleHolds(d: DocType, low: string) {
    match d
    case Ci3Documentation => Occurs(low, "ci3") && !Occurs(low, "ci4")
    case Ci4Documentation => Occurs(low, "ci4")
    case UpgradeGuide => Occurs(low, "upgrade") || Occurs(low, "migration")
    case ModelDocs => Occurs(low, "model")
    case ViewDocs => Occurs(low, "view")
    case HelperDocs => Occurs(low, "helper")
    case LibraryDocs => Occurs(low, "library") || Occurs(low, "lib")
    case General => true
  }

  /** `d` is the first category, in priority order, whose rule holds. */
  ghost predicate FirstMatch(d: DocType, low: string) {
    RuleHolds(d, low) && forall e :: Rank(e) < Rank(d) ==> !RuleHolds(e, low)
  }

  /** At most one category is the first match. */
  lemma FirstMatchUnique(d: DocType, e: DocType, low: string)
    requires FirstMatch(d, low) && FirstMatch(e, low)
    ensures d == e
  {
    assert Rank(d) == Rank(e);
  }

  /** The classifier returns exactly the first category, in priority order,
      whose rule holds of the lowercased name. */
  lemma IdentifyIsFirstMatch(filename: string, d: DocType)
    ensures IdentifyDocType(filename) == d <==> FirstMatch(d, LowerStr(filename))
  {
    if FirstMatch(d, LowerStr(filename)) {
      FirstMatchUnique(IdentifyDocType(filename), d, LowerStr(filename));
    }
  }

  /** Every name receives one of the eight labels. */
  lemma LabelTotal(filename: string)
    ensures Label(IdentifyDocType(filename)) in AllLabels
  {
  }

  /** Distinct categories are stored as distinct labels. */
  lemma LabelInjective(a: DocType, b: DocType)
    ensures Label(a) == Label(b) ==> a == b
  {
  }

  /** Only the lowercased name matters: names equal up to case get the
      same category. */
  lemma {:induction false} CaseInsensitive(a: string, b: string)
    requires EqualIgnoringCase(a, b)
    ensures IdentifyDocType(a) == IdentifyDocType(b)
  {
    assert LowerStr(a) == LowerStr(b);
  }

  /** Lowercasing a name first does not change its category. */
  lemma IdentifyOfLowered(filename: string)
    ensures IdentifyDocType(LowerStr(filename)) == IdentifyDocType(filename)
  {
    CaseInsensitive(LowerStr(filename), filename);
  }

  /** A name containing "ci4" in any case is CI4 documentation, even when it
      also contains "ci3". */
  lemma Ci4Wins(filename: string)
    requires Occurs(LowerStr(filename), "ci4")
    ensures IdentifyDocType(filename) == Ci4Documentation
  {
  }

  /** A name containing "ci3" and not "ci4" is CI3 documentation. */
  lemma Ci3WithoutCi4(filename: string)
    requires Occurs(LowerStr(filename), "ci3") && !Occurs(LowerStr(filename), "ci4")
    ensures IdentifyDocType(filename) == Ci3Documentation
  {
  }

  /** Every keyword the classifier tests for. */
  const Keywords: set<string> := {
    "ci3", "ci4", "upgrade", "migration", "model", "view", "helper", "library", "lib"
  }

  /** A name with none of the keywords is general. */
  lemma NoKeywordIsGeneral(filename: string)
    requires forall k :: k in Keywords ==> !Occurs(LowerStr(filename), k)
    ensures IdentifyDocType(filename) == General
  {
  }

  /** A name falls in a category other than General only if it contains one
      of the keywords. */
  lemma NotGeneralHasKeyword(filename: string)
    requires IdentifyDocType(filename) != General
    ensures exists k :: k in Keywords && Occurs(LowerStr(filename), k)
  {
    var low := LowerStr(filename);
    if Occurs(low, "ci3") { assert "ci3" in Keywords; }
    else if Occurs(low, "ci4") { assert "ci4" in Keywords; }
    else if Occurs(low, "upgrade") { assert "upgrade" in Keywords; }
    else if Occurs(low, "migration") { assert "migration" in Keywords; }
    else if Occurs(low, "model") { assert "model" in Keywords; }
    else if Occurs(low, "view") { assert "view" in Keywords; }
    else if Occurs(low, "helper") { assert "helper" in Keywords; }
    else { assert "lib" in Keywords; }
  }

  /** The "library" test is subsumed by the "lib" test: any name containing
      "library" contains "lib". */
  lemma LibrarySubsumedByLib(s: string)
    requires Occurs(s, "library")
    ensures Occurs(s, "lib")
  {
    var i :| MatchAt(s, "library", i);
    assert s[i..i + 3] == s[i..i + 7][..3];
    assert MatchAt(s, "lib", i);
  }

  /** A pattern with a character that never appears in `s` does not occur
      in `s`. */
  lemma AbsentChar(s: string, pat: string, c: char)
    requires c in pat && c !in s
    ensures !Occurs(s, pat)
  {
  }

  lemma OccursAt(s: string, pat: string, i: nat)
    requires i + |pat| <= |s|
    requires forall j :: 0 <= j < |pat| ==> s[i + j] == pat[j]
    ensures Occurs(s, pat)
  {
    assert s[i..i + |pat|] == pat;
    assert MatchAt(s, pat, i);
  }

  // Concrete names: the rules pick the category shown, and so does the
  // classifier.

  /** "model" is tested before "view" and "helper". */
  lemma ExampleModelFirst()
    ensures FirstMatch(ModelDocs, "model_view_helper.txt")
    ensures IdentifyDocType("model_view_helper.txt") == ModelDocs
  {
    var low := "model_view_helper.txt";
    assert FirstMatch(ModelDocs, low) by {
      assert !Occurs(low, "ci3") by { AbsentChar(low, "ci3", 'c'); }
      assert !Occurs(low, "ci4") by { AbsentChar(low, "ci4", 'c'); }
      assert !Occurs(low, "upgrade") by { AbsentChar(low, "upgrade", 'u'); }
      assert !Occurs(low, "migration") by { AbsentChar(low, "migration", 'g'); }
      assert Occurs(low, "model") by { OccursAt(low, "model", 0); }
      forall e | Rank(e) < Rank(ModelDocs) ensures !RuleHolds(e, low) {
        match e
        case Ci3Documentation =>
        case Ci4Documentation =>
        case UpgradeGuide =>
      }
    }
    assert LowerStr(low) == low by { LowerOfLower(low); }
    IdentifyIsFirstMatch(low, ModelDocs);
  }

  /** A name with both "ci3" and "ci4" is CI4 documentation. */
  lemma ExampleBothVersions()
    ensures FirstMatch(Ci4Documentation, "ci3_ci4_guide.txt")
    ensures IdentifyDocType("ci3_ci4_guide.txt") == Ci4Documentation
  {
    var low := "ci3_ci4_guide.txt";
    assert FirstMatch(Ci4Documentation, low) by {
      assert Occurs(low, "ci4") by { OccursAt(low, "ci4", 4); }
      forall e | Rank(e) < Rank(Ci4Documentation) ensures !RuleHolds(e, low) {
        match e
        case Ci3Documentation =>
      }
    }
    assert LowerStr(low) == low by { LowerOfLower(low); }
    IdentifyIsFirstMatch(low, Ci4Documentation);
  }

  /** A name with no keyword is general. */
  lemma ExampleGeneral()
    ensures FirstMatch(General, "notes.txt")
    ensures IdentifyDocType("notes.txt") == General
  {
    var low := "notes.txt";
    assert FirstMatch(General, low) by {
      assert !Occurs(low, "ci3") by { AbsentChar(low, "ci3", 'c'); }
      assert !Occurs(low, "ci4") by { AbsentChar(low, "ci4", 'c'); }
      assert !Occurs(low, "upgrade") by { AbsentChar(low, "upgrade", 'u'); }
      assert !Occurs(low, "migration") by { AbsentChar(low, "migration", 'm'); }
      assert !Occurs(low, "model") by { AbsentChar(low, "model", 'm'); }
      assert !Occurs(low, "view") by { AbsentChar(low, "view", 'v'); }
      assert !Occurs(low, "helper") by { AbsentChar(low, "helper", 'h'); }
      assert !Occurs(low, "library") by { AbsentChar(low, "library", 'l'); }
      assert !Occurs(low, "lib") by { AbsentChar(low, "lib", 'l'); }
      forall e | Rank(e) < Rank(General) ensures !RuleHolds(e, low) {
        match e
        case Ci3Documentation =>
        case Ci4Documentation =>
        case UpgradeGuide =>
        case ModelDocs =>
        case ViewDocs =>
        case HelperDocs =>
        case LibraryDocs =>
      }
    }
    assert LowerStr(low) == low by { LowerOfLower(low); }
    IdentifyIsFirstMatch(low, General);
  }

  /** "lib" matches inside unrelated words: "calibration" is library
      documentation. */
  lemma ExampleLibInsideWord()
    ensures FirstMatch(LibraryDocs, "calibration")
    ensures IdentifyDocType("calibration") == LibraryDocs
  {
    var low := "calibration";
    assert FirstMatch(LibraryDocs, low) by {
      assert !Occurs(low, "ci3") by { AbsentChar(low, "ci3", '3'); }
      assert !Occurs(low, "ci4") by { AbsentChar(low, "ci4", '4'); }
      assert !Occurs(low, "upgrade") by { AbsentChar(low, "upgrade", 'u'); }
      assert !Occurs(low, "migration") by { AbsentChar(low, "migration", 'm'); }
      assert !Occurs(low, "model") by { AbsentChar(low, "model", 'm'); }
      assert !Occurs(low, "view") by { AbsentChar(low, "view", 'v'); }
      assert !Occurs(low, "helper") by { AbsentChar(low, "helper", 'h'); }
      assert Occurs(low, "lib") by { OccursAt(low, "lib", 2); }
    }
    assert LowerStr(low) == low by { LowerOfLower(low); }
    IdentifyIsFirstMatch(low, LibraryDocs);
  }
}
