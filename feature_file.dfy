/** The Gherkin `.feature` exporter: a feature name chosen from the
    requirement text, the first scenario's title or a default, and the
    scenarios written out as `Scenario:` blocks under one `Feature:` line. */
module FeatureFile {
  import opened Text
  import opened Records

  /** The name used when there is neither a requirement nor a scenario. */
  const DefaultName := "AI Generated Feature"

  /** The characters `/[^a-z0-9 ]/gi` leaves in place: ASCII letters of
      either case, digits and the space. Without the `u` flag no other
      character folds to an ASCII letter, so the class is exact. */
  predicate IsNameChar(c: char) {
    IsAsciiUpper(c) || IsAsciiLower(c) || IsAsciiDigit(c) || c == ' '
  }

  /** `s.split('\n')[0]`. */
  function FirstLine(s: string): string {
    Split(s, '\n')[0]
  }

  /** `s.replace(/[^a-z0-9 ]/gi, '')`: every other character is deleted. */
  function KeepNameChars(s: string): (r: string)
    ensures forall i :: 0 <= i < |r| ==> IsNameChar(r[i])
    decreases |s|
  {
    if s == [] then []
    else
      var rest := KeepNameChars(s[1..]);
      if IsNameChar(s[0]) then [s[0]] + rest else rest
  }

  /** Every name character keeps its number of occurrences, and every other
      character is gone. */
  lemma {:induction false} KeepNameCharsCounts(s: string)
    ensures forall c :: IsNameChar(c) ==> multiset(KeepNameChars(s))[c] == multiset(s)[c]
    ensures forall c :: !IsNameChar(c) ==> multiset(KeepNameChars(s))[c] == 0
    decreases |s|
  {
    if s != [] {
      KeepNameCharsCounts(s[1..]);
      assert s == [s[0]] + s[1..];
    }
  }

  /** The filter works one character at a time: a name character is kept,
      any other dropped. */
  lemma KeepNameCharsChar(c: char)
    ensures KeepNameChars([c]) == if IsNameChar(c) then [c] else []
  {
    assert [c][1..] == [];
  }

  /** The filter keeps the order of what it keeps: filtering a concatenation
      is concatenating the filtered parts. With `KeepNameCharsChar` this
      determines the filter on every text. */
  lemma {:induction false} KeepNameCharsAppend(a: string, b: string)
    ensures KeepNameChars(a + b) == KeepNameChars(a) + KeepNameChars(b)
    decreases |a|
  {
    if a != [] {
      var s := a + b;
      assert s != [] && s[0] == a[0] && s[1..] == a[1..] + b;
      var h := if IsNameChar(a[0]) then [a[0]] else [];
      assert KeepNameChars(s) == h + KeepNameChars(a[1..] + b);
      assert KeepNameChars(a) == h + KeepNameChars(a[1..]);
      KeepNameCharsAppend(a[1..], b);
      Assoc(h, KeepNameChars(a[1..]), KeepNameChars(b));
    } else {
      assert a + b == b;
    }
  }

  /** The name taken from a non-empty requirement. */
  function RequirementName(requirement: string): string {
    Trim(KeepNameChars(FirstLine(requirement)))
  }

  /** The lower-cased role word `s` starts with, any letter case being
      accepted, or the empty string when it starts with none of them. The
      words start with different letters, so at most one can match. */
  function RoleWord(s: string): string {
    if FoldedPrefix(s, "user") then "user"
    else if FoldedPrefix(s, "guest") then "guest"
    else if FoldedPrefix(s, "customer") then "customer"
    else ""
  }

  /** `s` starts with the lower-case word `w` when ASCII letter case is
      ignored, as a case-insensitive regular expression compares them. */
  predicate FoldedPrefix(s: string, w: string) {
    |w| <= |s| && forall i :: 0 <= i < |w| ==> LowerChar(s[i]) == w[i]
  }

  /** Equivalently, the lower-cased text starts with `w`. */
  lemma FoldedPrefixIsStartsWith(s: string, w: string)
    ensures FoldedPrefix(s, w) <==> StartsWith(ToLower(s), w)
  {
    if |w| <= |s| {
      assert forall i :: 0 <= i < |w| ==> ToLower(s)[..|w|][i] == LowerChar(s[i]);
    }
  }

  /** Length of the run of whitespace `s` starts with. */
  function SpaceRun(s: string): (n: nat)
    ensures n <= |s|
    ensures forall i :: 0 <= i < n ==> IsSpace(s[i])
    ensures n == |s| || !IsSpace(s[n])
    decreases |s|
  {
    if s != [] && IsSpace(s[0]) then 1 + SpaceRun(s[1..]) else 0
  }

  /** Length of the match of `(User|Guest|Customer)\s+` (case-insensitive,
      greedy) that starts at the beginning of `s`, if there is one. */
  function RoleMatch(s: string): (r: Option<nat>)
    ensures r.Some? ==> r.value <= |s|
    ensures r.Some? <==> RoleWord(s) != "" && |RoleWord(s)| < |s| && IsSpace(s[|RoleWord(s)|])
    ensures r.Some? ==>
      && FoldedPrefix(s, RoleWord(s))
      && |RoleWord(s)| < r.value
      && (forall i :: |RoleWord(s)| <= i < r.value ==> IsSpace(s[i]))
      && (r.value == |s| || !IsSpace(s[r.value]))
  {
    var w := RoleWord(s);
    if w != "" && SpaceRun(s[|w|..]) > 0 then Some(|w| + SpaceRun(s[|w|..])) else None
  }

  /** `s.replace(re, '')` for a regular expression `re` without the `g`
      flag, where `m(t)` is the length of the match of `re` at the start of
      `t`, if any: the leftmost match is removed, wherever it starts. */
  function RemoveFirst(m: string -> Option<nat>, s: string): string
    requires forall t :: m(t).Some? ==> m(t).value <= |t|
    decreases |s|
  {
    match m(s)
    case Some(n) => s[n..]
    case None => if s == [] then [] else [s[0]] + RemoveFirst(m, s[1..])
  }

  /** A text in which no position starts a match is left unchanged. */
  lemma {:induction false} RemoveFirstWithoutMatch(m: string -> Option<nat>, s: string)
    requires forall t :: m(t).Some? ==> m(t).value <= |t|
    requires forall i :: 0 <= i <= |s| ==> m(s[i..]).None?
    ensures RemoveFirst(m, s) == s
    decreases |s|
  {
    assert s[0..] == s;
    if s != [] {
      var t := s[1..];
      forall j | 0 <= j <= |t| ensures m(t[j..]).None? {
        assert t[j..] == s[j + 1..];
      }
      RemoveFirstWithoutMatch(m, t);
      assert [s[0]] + t == s;
    }
  }

  /** Removal takes out exactly the leftmost match: the one starting at `i`
      when no earlier position starts one. */
  lemma {:induction false} RemoveFirstIsLeftmost(m: string -> Option<nat>, s: string, i: nat)
    requires forall t :: m(t).Some? ==> m(t).value <= |t|
    requires i <= |s| && m(s[i..]).Some?
    requires forall j :: 0 <= j < i ==> m(s[j..]).None?
    ensures RemoveFirst(m, s) == s[..i] + s[i + m(s[i..]).value..]
    decreases i
  {
    assert s[0..] == s;
    var n := m(s[i..]).value;
    if i > 0 {
      var t := s[1..];
      assert m(s).None?;
      assert RemoveFirst(m, s) == [s[0]] + RemoveFirst(m, t);
      assert t[i - 1..] == s[i..];
      forall j | 0 <= j < i - 1 ensures m(t[j..]).None? {
        assert t[j..] == s[j + 1..];
      }
      RemoveFirstIsLeftmost(m, t, i - 1);
      assert t[i - 1 + n..] == s[i + n..];
      assert [s[0]] + t[..i - 1] == s[..i];
      Assoc([s[0]], t[..i - 1], s[i + n..]);
    } else {
      assert s[..0] == [];
    }
  }

  /** `title.replace(/(User|Guest|Customer)\s+/i, '')`. */
  function RemoveFirstRole(s: string): string {
    RemoveFirst(RoleMatch, s)
  }

  /** `w[0]?.toUpperCase() + w.slice(1)`: for an empty word the first operand
      is `undefined`, which the concatenation renders as the text "undefined". */
  function Capitalize(w: string): (r: string)
    ensures w == [] ==> r == "undefined"
    ensures w != [] ==> |r| == |w| && r[0] == UpperChar(w[0]) && r[1..] == w[1..]
    ensures ' ' !in w ==> ' ' !in r
  {
    if w == [] then "undefined" else [UpperChar(w[0])] + w[1..]
  }

  /** `.slice(0, 5)` of the space-separated pieces of the title with the role removed. */
  function Words(title: string): (ws: seq<string>)
    ensures 1 <= |ws| <= 5
    ensures var pieces := Split(RemoveFirstRole(title), ' ');
      && |ws| == (if |pieces| <= 5 then |pieces| else 5)
      && ws == pieces[..|ws|]
  {
    var pieces := Split(RemoveFirstRole(title), ' ');
    Take(pieces, 5)
  }

  /** `.map(...)` of the capitalisation over the words. */
  function CapitalizeAll(ws: seq<string>): (rs: seq<string>)
    ensures |rs| == |ws|
    ensures forall i :: 0 <= i < |ws| ==> rs[i] == Capitalize(ws[i])
  {
    seq(|ws|, i requires 0 <= i < |ws| => Capitalize(ws[i]))
  }

  /** The name taken from the first scenario's title. */
  function TitleName(title: string): string {
    Join(CapitalizeAll(Words(title)), " ")
  }

  /** `generateFeatureName(scenarios, requirement)`: the requirement decides
      the name when it is non-empty, else the first scenario's title, else
      the default. */
  function GenerateFeatureName(scenarios: seq<Scenario>, requirement: string): string {
    if |requirement| > 0 then RequirementName(requirement)
    else if |scenarios| > 0 then TitleName(scenarios[0].title)
    else DefaultName
  }

  /** From a non-empty requirement the name holds ASCII letters, digits and
      inner spaces only and keeps every letter and digit of the requirement's
      first line; else it is the first scenario's title cut into at most
      five capitalised words; else it is the default. */
  lemma GenerateFeatureNameCases(scenarios: seq<Scenario>, requirement: string)
    ensures |requirement| > 0 ==> NameOf(GenerateFeatureName(scenarios, requirement), FirstLine(requirement))
    ensures |requirement| == 0 && |scenarios| > 0 ==>
      Split(GenerateFeatureName(scenarios, requirement), ' ') == CapitalizeAll(Words(scenarios[0].title))
    ensures |requirement| == 0 && |scenarios| == 0 ==> GenerateFeatureName(scenarios, requirement) == "AI Generated Feature"
  {
    if |requirement| > 0 {
      RequirementNameShape(requirement);
    } else if |scenarios| > 0 {
      TitleNameWords(scenarios[0].title);
    }
  }

  /** The first line of a text is its prefix before the first newline. */
  lemma FirstLineShape(s: string)
    ensures var first := FirstLine(s);
      && first == s[..|first|] && '\n' !in first
      && (|first| == |s| || s[|first|] == '\n')
  {
    SplitHead(s, '\n');
  }

  /** `name` is a piece of `line` with every character but ASCII letters,
      digits and spaces deleted; it starts and ends with something other than
      a space, and has exactly the letters and digits of `line`, each as
      often. */
  ghost predicate NameOf(name: string, line: string) {
    && (exists i: nat :: OccursAt(KeepNameChars(line), name, i))
    && (forall i :: 0 <= i < |name| ==> IsNameChar(name[i]))
    && (name == [] || (name[0] != ' ' && name[|name| - 1] != ' '))
    && (forall c :: IsNameChar(c) && c != ' ' ==> multiset(name)[c] == multiset(line)[c])
  }

  /** The name drawn from a requirement is a name of its first line. */
  lemma RequirementNameShape(requirement: string)
    ensures NameOf(RequirementName(requirement), FirstLine(requirement))
  {
    var k := KeepNameChars(FirstLine(requirement));
    KeepNameCharsCounts(FirstLine(requirement));
    TrimNameChars(k);
  }

  /** Trimming a text of name characters leaves a text of name characters
      with the same letters and digits. */
  lemma TrimNameChars(k: string)
    requires forall i :: 0 <= i < |k| ==> IsNameChar(k[i])
    ensures forall i :: 0 <= i < |Trim(k)| ==> IsNameChar(Trim(k)[i])
    ensures forall c :: c != ' ' ==> multiset(Trim(k))[c] == multiset(k)[c]
  {
    var name := Trim(k);
    TrimKeeps(k);
    forall i | 0 <= i < |name| ensures IsNameChar(name[i]) {
      assert name[i] in multiset(name);
      assert name[i] in multiset(k);
    }
    forall c | c != ' ' ensures multiset(name)[c] == multiset(k)[c] {
      if IsSpace(c) {
        assert c !in multiset(k);
      }
    }
  }

  /** The name drawn from a title is at most five space-separated words: the
      capitalised leading pieces of the title once its first role prefix is
      removed. */
  lemma TitleNameWords(title: string)
    ensures Split(TitleName(title), ' ') == CapitalizeAll(Words(title))
    ensures |Split(TitleName(title), ' ')| <= 5
  {
    var ws := Words(title);
    var pieces := Split(RemoveFirstRole(title), ' ');
    forall k | 0 <= k < |ws| ensures ' ' !in CapitalizeAll(ws)[k] {
      assert ws[k] == pieces[k];
    }
    SplitJoin(CapitalizeAll(ws), ' ');
  }

  /** No role word starts with a letter other than `u`, `g` or `c`, nor with a
      `u` that is not followed by an `s`. */
  lemma NoRoleWordAt(r: string)
    requires |r| >= 2
    requires LowerChar(r[0]) != 'g' && LowerChar(r[0]) != 'c'
    requires LowerChar(r[0]) != 'u' || LowerChar(r[1]) != 's'
    ensures RoleMatch(r).None?
  {
    assert "guest"[0] == 'g' && "customer"[0] == 'c';
    assert "user"[0] == 'u' && "user"[1] == 's';
    assert !FoldedPrefix(r, "guest") && !FoldedPrefix(r, "customer") && !FoldedPrefix(r, "user");
  }

  /** The role pattern is not anchored at a word start: a role word in the
      middle of a word is removed with the whitespace after it. */
  lemma MidWordRole(w: string)
    requires w == [] || !IsSpace(w[0])
    ensures RemoveFirstRole("Super" + ("user " + w)) == "Super" + w
  {
    var t := "user " + w;
    NoRoleInSuper(t);
    UserRoleMatch(w);
    RemoveFirstAfter(RoleMatch, "Super", t);
    assert t[5..] == w;
  }

  /** When no match starts inside `a` and one starts right after it, that
      one is removed. */
  lemma RemoveFirstAfter(m: string -> Option<nat>, a: string, t: string)
    requires forall t :: m(t).Some? ==> m(t).value <= |t|
    requires forall j :: 0 <= j < |a| ==> m((a + t)[j..]).None?
    requires m(t).Some?
    ensures RemoveFirst(m, a + t) == a + t[m(t).value..]
  {
    var s := a + t;
    assert s[|a|..] == t && s[..|a|] == a;
    RemoveFirstIsLeftmost(m, s, |a|);
    assert s[|a| + m(t).value..] == t[m(t).value..];
  }

  /** No role word starts inside "Super" when a `u` follows it. */
  lemma NoRoleInSuper(t: string)
    requires t != [] && t[0] == 'u'
    ensures forall j :: 0 <= j < 5 ==> RoleMatch(("Super" + t)[j..]).None?
  {
    var s := "Super" + t;
    forall j | 0 <= j < 5 ensures RoleMatch(s[j..]).None? {
      var r := s[j..];
      assert r[0] == s[j] && r[1] == s[j + 1];
      NoRoleWordAt(r);
    }
  }

  /** "user" and one whitespace character are matched together. */
  lemma UserRoleMatch(w: string)
    requires w == [] || !IsSpace(w[0])
    ensures RoleMatch("user " + w) == Some(5)
  {
    var t := "user " + w;
    assert t[0] == 'u' && t[1] == 's' && t[2] == 'e' && t[3] == 'r';
    assert FoldedPrefix(t, "user");
    assert t[4..] == " " + w;
    assert SpaceRun(t[4..]) == 1;
  }

  /** So "Superuser x" becomes "Superx". */
  lemma UnanchoredRoleExample()
    ensures RemoveFirstRole("Superuser x") == "Superx"
  {
    MidWordRole("x");
    assert "Super" + ("user " + "x") == "Superuser x";
    assert "Super" + "x" == "Superx";
  }

  /** The header line `exportAllAsFeatureFile` and a named
      `scenarioToFeature` start with. */
  function FeatureLine(name: string): string {
    "Feature: " + name
  }

  /** The line a scenario's block starts with. */
  function ScenarioLine(s: Scenario): string {
    "Scenario: " + s.title
  }

  /** The lines of a scenario's block without a feature header: its
      `Scenario:` line and then its step lines, unchanged and in order. */
  function ScenarioLines(s: Scenario): seq<string> {
    [ScenarioLine(s)] + s.lines
  }

  /** The feature header: a `Feature:` line and an empty line. */
  function Header(name: string): string {
    "Feature: " + name + "\n\n"
  }

  /** The text of `scenarioToFeature(s, featureName)`. */
  function ScenarioText(s: Scenario, featureName: string): string {
    (if featureName != "" then Header(featureName) else "") + (ScenarioLine(s) + "\n") + Lines(s.lines)
  }

  /** The scenarios' blocks, without feature headers, in order. */
  function ScenarioTexts(scenarios: seq<Scenario>): string
    decreases |scenarios|
  {
    if scenarios == [] then ""
    else ScenarioTexts(scenarios[..|scenarios| - 1]) + ScenarioText(scenarios[|scenarios| - 1], "")
  }

  /** The text `exportAllAsFeatureFile` writes once it has chosen the name:
      one header, then the scenarios' blocks. */
  function FileText(name: string, scenarios: seq<Scenario>): string {
    Header(name) + ScenarioTexts(scenarios)
  }

  /** `scenarioToFeature`: the feature header when a name is given, the
      scenario line, then each step line with its newline. */
  method ScenarioToFeature(s: Scenario, featureName: string) returns (featureText: string)
    ensures featureText == ScenarioText(s, featureName)
  {
    featureText := "";
    if featureName != "" {
      featureText := featureText + ("Feature: " + featureName + "\n\n");
    }
    assert featureText == if featureName != "" then Header(featureName) else "";
    ghost var header := featureText;
    featureText := featureText + ("Scenario: " + s.title + "\n");
    ghost var head := featureText;
    assert head == header + (ScenarioLine(s) + "\n");
    assert s.lines[..0] == [];
    for i := 0 to |s.lines|
      invariant featureText == head + Lines(s.lines[..i])
    {
      assert s.lines[..i + 1] == s.lines[..i] + [s.lines[i]];
      AppendLine(head, s.lines[..i], s.lines[i]);
      featureText := featureText + (s.lines[i] + "\n");
    }
    assert s.lines[..|s.lines|] == s.lines;
  }

  /** `exportAllAsFeatureFile`: one feature header for the generated name,
      then each scenario's block without a header of its own. */
  method ExportAllAsFeatureFile(scenarios: seq<Scenario>, requirement: string) returns (featureFile: string)
    ensures featureFile == FileText(GenerateFeatureName(scenarios, requirement), scenarios)
  {
    var featureName := GenerateFeatureName(scenarios, requirement);
    featureFile := "Feature: " + featureName + "\n\n";
    assert featureFile == Header(featureName) + ScenarioTexts(scenarios[..0]);
    for i := 0 to |scenarios|
      invariant featureFile == Header(featureName) + ScenarioTexts(scenarios[..i])
    {
      var text := ScenarioToFeature(scenarios[i], "");
      ScenarioTextsSnoc(scenarios, i);
      Assoc(Header(featureName), ScenarioTexts(scenarios[..i]), text);
      featureFile := featureFile + text;
    }
    assert scenarios[..|scenarios|] == scenarios;
  }

  /** Taking one more scenario appends its block. */
  lemma ScenarioTextsSnoc(scenarios: seq<Scenario>, i: nat)
    requires i < |scenarios|
    ensures ScenarioTexts(scenarios[..i + 1]) == ScenarioTexts(scenarios[..i]) + ScenarioText(scenarios[i], "")
  {
    assert scenarios[..i + 1][..i] == scenarios[..i];
  }

  /** The header is the `Feature:` line and an empty line. */
  lemma HeaderLines(name: string)
    ensures Header(name) == Lines([FeatureLine(name), ""])
  {
    ConcatMapCons(Terminate, FeatureLine(name), [""]);
    assert [FeatureLine(name)] + [""] == [FeatureLine(name), ""];
    OneLine("");
    assert "\n\n" == "\n" + "\n";
    Assoc(FeatureLine(name), "\n", "\n");
  }

  /** `scenarioToFeature(s, "")` is the scenario line and then the step
      lines, in order, each with its newline; a non-empty feature name puts
      exactly its header in front. */
  lemma ScenarioTextLines(s: Scenario, featureName: string)
    ensures ScenarioText(s, "") == Lines(ScenarioLines(s))
    ensures featureName != "" ==> ScenarioText(s, featureName) == Lines([FeatureLine(featureName), ""]) + ScenarioText(s, "")
  {
    OneLine(ScenarioLine(s));
    LinesAppend([ScenarioLine(s)], s.lines);
    HeaderLines(featureName);
    Assoc(Header(featureName), ScenarioLine(s) + "\n", Lines(s.lines));
  }

  /** All the lines of an exported file: the header's two lines, then each
      scenario's lines in order. */
  function FileLines(name: string, scenarios: seq<Scenario>): seq<string> {
    [FeatureLine(name), ""] + FlatMap(ScenarioLines, scenarios)
  }

  lemma {:induction false} ScenarioTextsLines(scenarios: seq<Scenario>)
    ensures ScenarioTexts(scenarios) == Lines(FlatMap(ScenarioLines, scenarios))
    decreases |scenarios|
  {
    if scenarios != [] {
      var init, last := scenarios[..|scenarios| - 1], scenarios[|scenarios| - 1];
      ScenarioTextsLines(init);
      ScenarioTextLines(last, "");
      LinesAppend(FlatMap(ScenarioLines, init), ScenarioLines(last));
    }
  }

  /** The exported file is its lines, the first of which is the only one
      that starts with "Feature:" unless a step line does: the scenarios get
      no header of their own. */
  lemma FeatureHeaderOnce(name: string, scenarios: seq<Scenario>)
    requires forall i, j :: 0 <= i < |scenarios| && 0 <= j < |scenarios[i].lines| ==>
      !StartsWith(scenarios[i].lines[j], "Feature:")
    ensures var ls := FileLines(name, scenarios);
      && FileText(name, scenarios) == Lines(ls)
      && StartsWith(ls[0], "Feature: ")
      && forall k :: 1 <= k < |ls| ==> !StartsWith(ls[k], "Feature:")
  {
    var body := FlatMap(ScenarioLines, scenarios);
    HeaderLines(name);
    ScenarioTextsLines(scenarios);
    LinesAppend([FeatureLine(name), ""], body);
    var p := (l: string) => !StartsWith(l, "Feature:");
    forall i, j | 0 <= i < |scenarios| && 0 <= j < |ScenarioLines(scenarios[i])|
      ensures p(ScenarioLines(scenarios[i])[j])
    {
      if j == 0 {
        assert ScenarioLine(scenarios[i])[0] == 'S';
      } else {
        assert ScenarioLines(scenarios[i])[j] == scenarios[i].lines[j - 1];
      }
    }
    FlatMapAll(ScenarioLines, p, scenarios);
    var ls := FileLines(name, scenarios);
    assert ls[0][..9] == "Feature: ";
    forall k | 1 <= k < |ls| ensures !StartsWith(ls[k], "Feature:") {
      if k >= 2 {
        assert ls[k] == body[k - 2];
        assert p(body[k - 2]);
      }
    }
  }

  /** When no line holds a newline, splitting the exported file on newlines
      gives exactly its lines and the empty piece after the last newline. */
  lemma FeatureFileSplit(name: string, scenarios: seq<Scenario>)
    requires '\n' !in name
    requires forall i :: 0 <= i < |scenarios| ==> '\n' !in scenarios[i].title
    requires forall i, j :: 0 <= i < |scenarios| && 0 <= j < |scenarios[i].lines| ==> '\n' !in scenarios[i].lines[j]
    ensures Split(FileText(name, scenarios), '\n') == FileLines(name, scenarios) + [""]
  {
    var body := FlatMap(ScenarioLines, scenarios);
    HeaderLines(name);
    ScenarioTextsLines(scenarios);
    LinesAppend([FeatureLine(name), ""], body);
    var p := (l: string) => '\n' !in l;
    forall i, j | 0 <= i < |scenarios| && 0 <= j < |ScenarioLines(scenarios[i])|
      ensures p(ScenarioLines(scenarios[i])[j])
    {
      if j == 0 {
        assert ScenarioLine(scenarios[i]) == "Scenario: " + scenarios[i].title;
      } else {
        assert ScenarioLines(scenarios[i])[j] == scenarios[i].lines[j - 1];
      }
    }
    FlatMapAll(ScenarioLines, p, scenarios);
    var ls := FileLines(name, scenarios);
    forall k | 0 <= k < |ls| ensures '\n' !in ls[k] {
      if k >= 2 {
        assert ls[k] == body[k - 2];
        assert p(body[k - 2]);
      }
    }
    SplitLines(ls);
  }
}
