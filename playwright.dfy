/** The Playwright skeleton generator: one `test(...)` block per scenario,
    with one fragment of output lines per step line, chosen by the shared
    cascade. */
module Playwright {
  import opened Text
  import opened Records
  import opened StepRules

  /** First line of a test block; the title goes in verbatim, unescaped. */
  function OpeningLine(title: string): string {
    "test('" + title + "', async ({ page }) => {"
  }

  /** The lines closing a test block: `});` and an empty line. */
  const ClosingLines: seq<string> := ["});", ""]

  /** The fixed header of the exported file. */
  const Imports: string :=
    "// Auto-generated Playwright tests\nimport { test, expect } from '@playwright/test';\n\n"

  /** The statements a login step signs in with, one output line each. */
  const Goto := "  await page.goto('https://your-dev-url.com/login');"
  const FillEmail := "  await page.fill('#email', 'testuser@example.com');"
  const FillPassword := "  await page.fill('#password', 'Password1!');"
  const ClickLogin := "  await page.click('#login');"

  /** The placeholder comments of the store-locator, cart and payment steps. */
  const StoreComment := "  // " + StoreLocatorTodo
  const CartComment := "  // " + AddToCartTodo
  const PaymentComment := "  // " + PaymentTodo

  /** The output lines one step line contributes. Comment lines copy the
      original line, not its lower-cased form. */
  function StepLines(line: string): seq<string> {
    match Classify(line)
    case Login => [Goto, FillEmail, FillPassword, ClickLogin]
    case StoreLocator => [StoreComment]
    case AddToCart => [CartComment]
    case Payment => [PaymentComment]
    case WhenStep => ["  // " + line]
    case AssertStep => ["  // Assert: " + line]
    case PlainStep => ["  // " + line]
  }

  /** The text one step line contributes. */
  function Step(line: string): string {
    Lines(StepLines(line))
  }

  /** The whole test block for one scenario. */
  function TestBlock(s: Scenario): string {
    OpeningLine(s.title) + "\n" + ConcatMap(Step, s.lines) + Lines(ClosingLines)
  }

  /** The test blocks of the scenarios, in order. */
  function Blocks(scenarios: seq<Scenario>): string
    decreases |scenarios|
  {
    if scenarios == [] then ""
    else Blocks(scenarios[..|scenarios| - 1]) + TestBlock(scenarios[|scenarios| - 1])
  }

  /** The exported file: the header, then each scenario's test block, in order. */
  function ExportText(scenarios: seq<Scenario>): string {
    Imports + Blocks(scenarios)
  }

  /** The `forEach` callback of `gherkinToPlaywright`: appends what one step
      line emits, testing the lower-cased line against the cascade in order. */
  method AppendStep(code: string, line: string) returns (code': string)
    ensures code' == code + Step(line)
  {
    var l := ToLower(line);
    code' := code;
    if Contains(l, "logged in") {
      code' := code' + (Goto + "\n");
      code' := code' + (FillEmail + "\n");
      code' := code' + (FillPassword + "\n");
      code' := code' + (ClickLogin + "\n");
      assert Classify(line) == Login;
      AppendFourLines(code, Goto, FillEmail, FillPassword, ClickLogin);
    } else if Contains(l, "store locator") || Contains(l, "selects a location") {
      code' := code' + (StoreComment + "\n");
      assert Classify(line) == StoreLocator;
      AppendOneLine(code, StoreComment);
    } else if Contains(l, "adds") && Contains(l, "cart") {
      code' := code' + (CartComment + "\n");
      assert Classify(line) == AddToCart;
      AppendOneLine(code, CartComment);
    } else if Contains(l, "proceeds to the payment page") {
      code' := code' + (PaymentComment + "\n");
      assert Classify(line) == Payment;
      AppendOneLine(code, PaymentComment);
    } else if StartsWith(l, "when ") {
      code' := code' + ("  // " + line + "\n");
      assert Classify(line) == WhenStep;
      AppendOneLine(code, "  // " + line);
    } else if StartsWith(l, "then ") || StartsWith(l, "and ") {
      code' := code' + ("  // Assert: " + line + "\n");
      assert Classify(line) == AssertStep;
      AppendOneLine(code, "  // Assert: " + line);
    } else {
      code' := code' + ("  // " + line + "\n");
      assert Classify(line) == PlainStep;
      AppendOneLine(code, "  // " + line);
    }
  }

  /** `gherkinToPlaywright`: the opening line, each step line's fragment in
      source order, and the closing lines. */
  method GherkinToPlaywright(s: Scenario) returns (code: string)
    ensures code == TestBlock(s)
  {
    code := "test('" + s.title + "', async ({ page }) => {\n";
    assert code == OpeningLine(s.title) + "\n" + ConcatMap(Step, s.lines[..0]);
    for i := 0 to |s.lines|
      invariant code == OpeningLine(s.title) + "\n" + ConcatMap(Step, s.lines[..i])
    {
      Assoc(OpeningLine(s.title) + "\n", ConcatMap(Step, s.lines[..i]), Step(s.lines[i]));
      code := AppendStep(code, s.lines[i]);
      ConcatMapPrefix(Step, s.lines, i);
    }
    assert s.lines[..|s.lines|] == s.lines;
    code := code + "});\n\n";
    ClosingText();
  }

  /** `exportAllPlaywright`: the header, then each scenario's block appended in turn. */
  method ExportAllPlaywright(scenarios: seq<Scenario>) returns (allCode: string)
    ensures allCode == ExportText(scenarios)
  {
    allCode := Imports;
    for i := 0 to |scenarios|
      invariant allCode == Imports + Blocks(scenarios[..i])
    {
      var code := GherkinToPlaywright(scenarios[i]);
      assert scenarios[..i + 1][..i] == scenarios[..i];
      Assoc(Imports, Blocks(scenarios[..i]), code);
      allCode := allCode + code;
    }
    assert scenarios[..|scenarios|] == scenarios;
  }

  lemma ClosingText()
    ensures Lines(ClosingLines) == "});\n\n"
  {
    ConcatMapCons(Terminate, "});", [""]);
    ConcatMapCons(Terminate, "", []);
  }

  /** All the lines of a test block: the opening line, every step's lines in
      source order, then the closing lines. */
  function BlockLines(s: Scenario): seq<string> {
    [OpeningLine(s.title)] + FlatMap(StepLines, s.lines) + ClosingLines
  }

  /** A test block is exactly the opening line, four lines per login step and
      one per other step, in the order of the steps, and the closing lines. */
  lemma {:induction false} TestBlockLines(s: Scenario)
    ensures TestBlock(s) == Lines(BlockLines(s))
    ensures |BlockLines(s)| == 1 + SumMap(StepLineCount, s.lines) + 2
  {
    forall i | 0 <= i < |s.lines| ensures |StepLines(s.lines[i])| == StepLineCount(s.lines[i]) {
    }
    LinesOfFlatMap(StepLines, Step, StepLineCount, s.lines);
    var body := FlatMap(StepLines, s.lines);
    LinesAppend([OpeningLine(s.title)] + body, ClosingLines);
    LinesAppend([OpeningLine(s.title)], body);
    OneLine(OpeningLine(s.title));
  }

  /** The first `k` step lines' fragments follow the opening line directly,
      and the block ends with the closing lines. */
  lemma {:induction false} TestBlockShape(s: Scenario, k: nat)
    requires k <= |s.lines|
    ensures StartsWith(TestBlock(s), OpeningLine(s.title) + "\n" + ConcatMap(Step, s.lines[..k]))
    ensures |TestBlock(s)| >= 5 && TestBlock(s)[|TestBlock(s)| - 5..] == "});\n\n"
  {
    assert s.lines == s.lines[..k] + s.lines[k..];
    ConcatMapAppend(Step, s.lines[..k], s.lines[k..]);
    ClosingText();
    var o := OpeningLine(s.title) + "\n";
    var p, q := o + ConcatMap(Step, s.lines[..k]), ConcatMap(Step, s.lines[k..]);
    Assoc(o, ConcatMap(Step, s.lines[..k]), q);
    Assoc(p, q, "});\n\n");
    assert TestBlock(s) == p + (q + "});\n\n");
    assert TestBlock(s)[..|p|] == p;
  }

  /** The blocks of two runs of scenarios are the blocks of the first run
      followed by those of the second. */
  lemma {:induction false} BlocksAppend(a: seq<Scenario>, b: seq<Scenario>)
    ensures Blocks(a + b) == Blocks(a) + Blocks(b)
    decreases |b|
  {
    if b == [] {
      assert a + b == a;
    } else {
      var init, last := b[..|b| - 1], b[|b| - 1];
      assert (a + b)[..|a + b| - 1] == a + init;
      BlocksAppend(a, init);
      Assoc(Blocks(a), Blocks(init), TestBlock(last));
    }
  }

  /** The exported file is the header alone for no scenarios, and exporting
      two runs of scenarios one after the other is exporting the first and
      appending the second's blocks: the header appears once. */
  lemma ExportAppend(a: seq<Scenario>, b: seq<Scenario>)
    ensures ExportText([]) == Imports
    ensures ExportText(a + b) == ExportText(a) + Blocks(b)
  {
    BlocksAppend(a, b);
    Assoc(Imports, Blocks(a), Blocks(b));
  }
}
