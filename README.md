# Test-case exporters of the AI test-case generator

The generator turns a requirement into Gherkin scenarios. Each scenario is a
title and its step lines, in source order. This project models the code that
writes those scenarios out, and proves what each piece of it produces:

- **Feature file** (`FeatureFile`). A feature name is chosen from the first line
  of the requirement, or else from the first scenario's title with a role word
  removed and at most five capitalised words kept, or else the default
  "AI Generated Feature". Every scenario is then written as a `Scenario:` block
  under one `Feature:` line.
- **Playwright skeleton** (`Playwright`). Each scenario becomes one
  `test(...)` block. Every step line is lower-cased and tested against a
  seven-rule keyword cascade (`StepRules`). The first rule that accepts it
  decides the step's output: four sign-in statements, a TODO comment, or a
  comment with a copy of the original line. The export puts a fixed header
  in front of the blocks.
- **WebdriverIO skeleton** (`WebdriverIO`). The same cascade drives it, inside a
  `describe`/`it` pair and indented two columns further. The blocks of all
  scenarios are joined by `\n\n`. Each block already ends with a newline, so
  two empty lines separate consecutive blocks.
- **CSV export** (`CsvExport`). Every line of the generated output becomes one
  double-quoted record, with its quotes doubled, and the records are joined by
  CRLF. An empty output exports nothing. A decoder written beside it reads the
  CSV text back. It is the partner of the encoder, and the round trip gives
  back exactly the output.

The JavaScript functions that build a text by repeated `+=` inside a `forEach`
are loop methods:

- `ScenarioToFeature`
- `ExportAllAsFeatureFile`
- `GherkinToPlaywright`
- `ExportAllPlaywright`
- `GherkinToWebdriverIO`
- the shared per-line `AppendStep`

Each of them is proved equal to a specification function. The remaining
operations are pure functions: the choice of name, `exportAllWebdriverIO`
(a `map` and a `join`) and the CSV text. `Text` holds the JavaScript string
operations they use; the lemmas and contracts beside them say what the
exporters rely on (`join` and `startsWith` are pinned down only through the
lemmas about `split` and the role match):

- `split` on one character, `join`
- `trim`
- `includes`, `startsWith`
- `toLowerCase`

The module `Records` holds the scenario record.

Some behaviour of the code is modelled as written, quirks included:

- The role pattern `(User|Guest|Customer)\s+` is not anchored at a word start,
  so "Superuser x" becomes "Superx".
- An empty word in a title is rendered as "undefined".
- Titles and step lines are copied into the generated code without escaping.
- The keyword rules test substrings anywhere in the line. So any line
  containing both `adds` and `cart`, such as "when the user adds a pizza to
  the cart", becomes a cart step.

## Model

| member | source | states |
|---|---|---|
| Text.ToLowerIdempotent | src/utils/gherkinToPlaywright.js:6 | the lower-cased line has no upper-case letter left, and lower-casing it again changes nothing |
| Text.ContainsIffOccurs | src/utils/gherkinToPlaywright.js:7 | the `includes` scan finds a pattern exactly when it occurs at some index |
| Text.Split | src/utils/exportFeatureFile.js:6 | one piece more than there are separators; no piece holds the separator; joining the pieces with it gives the text back |
| Text.SplitJoin | src/utils/exportFeatureFile.js:14 | splitting a join of separator-free pieces gives the pieces back |
| Text.SplitHead | src/utils/exportFeatureFile.js:6 | the first piece is the prefix before the first separator, or the whole text |
| Text.Trim | src/utils/exportFeatureFile.js:6 | the result occurs in the text, and neither of its ends is whitespace |
| Text.TrimKeeps | src/utils/exportFeatureFile.js:6 | trimming removes only whitespace: no character gains occurrences, and every other character keeps its count |
| Text.SplitLines | src/utils/exportFeatureFile.js:25-27 | splitting newline-terminated, newline-free lines on newlines gives the lines and one empty last piece |
| StepRules.ClassifyIsFirstMatch | src/utils/gherkinToPlaywright.js:6-24 | `Classify`: the rule the if/else chain picks is, for every rule, exactly the one that accepts the lower-cased line while every earlier rule rejects it |
| StepRules.LoginTakesPrecedence | src/utils/gherkinToPlaywright.js:7-11 | a line mentioning "logged in" is a login step, whatever else it matches |
| StepRules.KeywordRulesBeforePrefixRules | src/utils/gherkinToPlaywright.js:12-18 | a line starting with "when " is a when-step if and only if none of the four keyword rules accepts it |
| StepRules.ClassifyIgnoresCase | src/utils/gherkinToPlaywright.js:6 | a line and its lower-cased form are classified alike |
| Playwright.AppendStep | src/utils/gherkinToPlaywright.js:5-25 | appends exactly the lines of the rule the cascade picks for the line |
| Playwright.GherkinToPlaywright | src/utils/gherkinToPlaywright.js:3-28 | the block is the opening line, each step's fragment in source order, then `});` and an empty line |
| Playwright.TestBlockLines | src/utils/gherkinToPlaywright.js:3-28 | the block is its line list; it has 1 + (4 per login step, 1 per other step) + 2 lines |
| Playwright.TestBlockShape | src/utils/gherkinToPlaywright.js:4-26 | every prefix of the steps' fragments follows the opening line directly; the block ends with `});\n\n` |
| Playwright.ExportAllPlaywright | src/utils/gherkinToPlaywright.js:30-36 | the export is the header followed by each scenario's block, in order |
| Playwright.ExportAppend | src/utils/gherkinToPlaywright.js:30-36 | no scenarios give the header alone, and exporting one list after another is the first export followed by the second list's blocks, with no second header |
| WebdriverIO.AppendStep | src/utils/exportWebdriverIO.js:4-24 | appends exactly the lines of the rule the cascade picks for the line |
| WebdriverIO.GherkinToWebdriverIO | src/utils/exportWebdriverIO.js:1-28 | the block is the two opening lines, each step's fragment in source order, then the two closing lines |
| WebdriverIO.TestBlockLines | src/utils/exportWebdriverIO.js:1-28 | the block is its line list; it has 2 + (4 per login step, 1 per other step) + 2 lines |
| WebdriverIO.MatchesPlaywright | src/utils/exportWebdriverIO.js:6-23 | a step gives as many lines as in the Playwright generator; every non-login line is the Playwright one indented two more columns |
| WebdriverIO.ExportAppend | src/utils/exportWebdriverIO.js:30-32 | `ExportAllWebdriverIO`: no scenarios give the empty text; one gives its block alone; one more appends `\n\n` and its block |
| WebdriverIO.TestBlockEnd | src/utils/exportWebdriverIO.js:26 | every block ends with `});` and a newline, so the `\n\n` join leaves two empty lines between blocks |
| FeatureFile.KeepNameChars | src/utils/exportFeatureFile.js:6 | only ASCII letters, digits and spaces remain |
| FeatureFile.KeepNameCharsCounts | src/utils/exportFeatureFile.js:6 | every letter, digit and space keeps its count; every other character is gone |
| FeatureFile.KeepNameCharsChar | src/utils/exportFeatureFile.js:6 | a single character is kept exactly when it is a letter, a digit or a space |
| FeatureFile.KeepNameCharsAppend | src/utils/exportFeatureFile.js:6 | filtering a concatenation is concatenating the filtered parts, so the kept characters stay in their order; with the one-character case this determines the filter |
| FeatureFile.FirstLineShape | src/utils/exportFeatureFile.js:6 | the first line is the newline-free prefix that ends at the first newline or at the end |
| FeatureFile.RequirementNameShape | src/utils/exportFeatureFile.js:4-6 | the name is a contiguous run of the filtered first line; it holds only ASCII letters, digits and spaces, has no space at either end, and has the first line's letters and digits, each as often |
| FeatureFile.FoldedPrefixIsStartsWith | src/utils/exportFeatureFile.js:12 | the case-insensitive word match is `startsWith` on the lower-cased text |
| FeatureFile.RoleMatch | src/utils/exportFeatureFile.js:12 | a match exists exactly when the text starts, case-insensitively, with "User", "Guest" or "Customer" followed by whitespace; it then ends after all of that whitespace |
| FeatureFile.SpaceRun | src/utils/exportFeatureFile.js:12 | `\s+` is greedy: all whitespace from the start, and no whitespace right after it |
| FeatureFile.RemoveFirstWithoutMatch | src/utils/exportFeatureFile.js:12 | a text in which no position starts a match is left unchanged |
| FeatureFile.RemoveFirstIsLeftmost | src/utils/exportFeatureFile.js:12 | `RemoveFirstRole`: exactly the leftmost match is cut out, and the text around it is kept |
| FeatureFile.MidWordRole | src/utils/exportFeatureFile.js:12 | "user" and the whitespace after it are removed even in the middle of a word |
| FeatureFile.UnanchoredRoleExample | src/utils/exportFeatureFile.js:12 | "Superuser x" becomes "Superx" |
| FeatureFile.Capitalize | src/utils/exportFeatureFile.js:14 | an empty word becomes "undefined"; otherwise the first letter is upper-cased and the rest kept |
| FeatureFile.Words | src/utils/exportFeatureFile.js:14 | between one and five words: exactly the first five space-separated pieces of the title with its role removed, or all of them when there are fewer |
| FeatureFile.TitleNameWords | src/utils/exportFeatureFile.js:8-14 | the name splits on spaces into exactly the capitalised leading words of the title, once its role prefix is removed; there are at most five of them |
| FeatureFile.GenerateFeatureNameCases | src/utils/exportFeatureFile.js:3-17 | `GenerateFeatureName`: a non-empty requirement gives a name of its first line (as in the row of `RequirementNameShape`); failing that, the first title gives its capitalised words; failing both, the name is "AI Generated Feature" |
| FeatureFile.ScenarioToFeature | src/utils/exportFeatureFile.js:20-30 | the header only when a name is given, then the `Scenario:` line, then each step line with its newline |
| FeatureFile.ScenarioTextLines | src/utils/exportFeatureFile.js:20-30 | an unnamed block is exactly the scenario line and the step lines, in order; a name puts exactly its two header lines in front |
| FeatureFile.ExportAllAsFeatureFile | src/utils/exportFeatureFile.js:34-41 | one header for the generated name, followed by each scenario's unnamed block, in order |
| FeatureFile.FeatureHeaderOnce | src/utils/exportFeatureFile.js:34-41 | the file is its lines; it starts with "Feature: ", and, unless a step line itself does, no other line starts with "Feature:" |
| FeatureFile.FeatureFileSplit | src/utils/exportFeatureFile.js:34-41 | when no name, title or step holds a newline, splitting the file on newlines gives exactly its lines and one empty last piece |
| CsvExport.EscapeQuotes | src/App.jsx:26 | every double quote is doubled, every other character keeps its count, and the length grows by the number of quotes |
| CsvExport.Records | src/App.jsx:24-26 | one record per `\n`-separated line, in order, and unquoting the records gives back exactly those lines |
| CsvExport.ExportToCsv | src/App.jsx:22-27 | nothing is exported exactly when the output is empty; otherwise the exported text is the CSV text, and it decodes back into the output |
| CsvExport.RecordCount | src/App.jsx:24-27 | there is one more record than the output has newlines |
| CsvExport.UnescapeEscape | src/App.jsx:26 | un-doubling the quotes gives the line back |
| CsvExport.UnquoteQuote | src/App.jsx:26 | unquoting a record gives its line back |
| CsvExport.JoinCrLf | src/App.jsx:27 | joining by CRLF is joining by LF the pieces with `\r` after all but the last |
| CsvExport.CsvPieces | src/App.jsx:24-27 | the CSV text splits on `\n` into the records, each but the last ending in its `\r` |
| CsvExport.RoundTrip | src/App.jsx:24-27 | `CsvText`: decoding the CSV text gives back exactly the output |
| CsvExport.NewlineCount | src/App.jsx:24-27 | the CSV text has exactly as many newlines as the output |

## Left out

- The parsing of provider text into scenarios, the provider calls, the HTTP server, the job queue and the automation worker are not part of this model. The exporters start from the scenario records.
- The React state is not modelled, and neither is the file download: the `Blob`, the object URL, the anchor click and the revocation. `ExportToCsv` returns the text that would be downloaded, or nothing.
- `exportExcel` and the other UI handlers in src/App.jsx are not part of this model.
- Text.ToLower: `toLowerCase` is modelled on ASCII letters only. Other letters that JavaScript would lower-case are kept, so for them matching in the cascade can differ.
- FeatureFile.Capitalize: `toUpperCase` is modelled on ASCII letters only. It also maps one character to one, whereas JavaScript can expand one (e.g. "ß" becomes "SS").
- JavaScript strings are sequences of UTF-16 code units, which the model treats as characters. So a title that starts with a surrogate pair is capitalised per code unit in JavaScript.
- `null` or `undefined` scenarios, titles and requirements are not modelled: the `|| ''` and default-parameter fallbacks. The model takes strings and sequences, with the empty string standing for a missing requirement.
- Regular-expression matching is modelled by the specific matchers the three regular expressions need, not by a general engine.
  - `/[^a-z0-9 ]/gi` keeps ASCII letters, digits and spaces.
  - `/(User|Guest|Customer)\s+/i` is the leftmost greedy match with ASCII case folding.
  - `/"/g` replaces every quote.
- The decoder in `CsvExport` has no counterpart in the source. It is the reference that the round-trip property is stated against.
