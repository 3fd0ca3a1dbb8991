/** The WebdriverIO skeleton generator: one `describe`/`it` block per
    scenario, built by the same cascade as the Playwright generator with
    WebdriverIO statements and a deeper indentation. */
module WebdriverIO {
  import opened Text
  import opened Records
  import opened StepRules
  import Playwright

  /** The two opening lines of a block; the title goes in verbatim, unescaped. */
  function OpeningLines(title: string): seq<string> {
    ["describe('" + title + "', () => {", "  it('should execute the scenario', async () => {"]
  }

  /** The lines closing the `it` and the `describe` callbacks. */
  const ClosingLines: seq<string> := ["  });", "});"]

  /** The statements a login step signs in with, one output line each. */
  const OpenLogin := "    await browser.url('https://your-dev-url.com/login');"
  const SetEmail := "    await $('#email').setValue('testuser@example.com');"
  const SetPassword := "    await $('#password').setValue('Password1!');"
  const ClickLogin := "    await $('#loginButton').click();"

  /** The placeholder comments of the store-locator, cart and payment steps. */
  const StoreComment := "    // " + StoreLocatorTodo
  const CartComment := "    // " + AddToCartTodo
  const PaymentComment := "    // " + PaymentTodo

  /** The output lines one step line contributes. Comment lines copy the
      original line, not its lower-cased form. */
  function StepLines(line: string): seq<string> {
    match Classify(line)
    case Login => [OpenLogin, SetEmail, SetPassword, ClickLogin]
    case StoreLocator => [StoreComment]
    case AddToCart => [CartComment]
    case Payment => [PaymentComment]
    case WhenStep => ["    // " + line]
    case AssertStep => ["    // Assert: " + line]
    case PlainStep => ["    // " + line]
  }

  /** The text one step line contributes. */
  function Step(line: string): string {
    Lines(StepLines(line))
  }

  /** The whole block for one scenario. */
  function TestBlock(s: Scenario): string {
    Lines(OpeningLines(s.title)) + ConcatMap(Step, s.lines) + Lines(ClosingLines)
  }

  /** The blocks of the scenarios, in order. */
  function TestBlocks(scenarios: seq<Scenario>): (blocks: seq<string>)
    ensures |blocks| == |scenarios|
    ensures forall i :: 0 <= i < |scenarios| ==> blocks[i] == TestBlock(scenarios[i])
  {
    seq(|scenarios|, i requires 0 <= i < |scenarios| => TestBlock(scenarios[i]))
  }

  /** `exportAllWebdriverIO`: the blocks joined by `\n\n`. Each block already
      ends with a newline, so two empty lines separate consecutive blocks. */
  function ExportAllWebdriverIO(scenarios: seq<Scenario>): string {
    Join(TestBlocks(scenarios), "\n\n")
  }

  /** The `forEach` callback of `gherkinToWebdriverIO`: appends what one step
      line emits, testing the lower-cased line against the cascade in order. */
  method AppendStep(code: string, line: string) returns (code': string)
    ensures code' == code + Step(line)
  {
    var l := ToLower(line);
    code' := code;
    if Contains(l, "logged in") {
      code' := code' + (OpenLogin + "\n");
      code' := code' + (SetEmail + "\n");
      code' := code' + (SetPassword + "\n");
      code' := code' + (ClickLogin + "\n");
      assert Classify(line) == Login;
      AppendFourLines(code, OpenLogin, SetEmail, SetPassword, ClickLogin);
    } else if Contains(l, "store locator") || Contains(l, "selects a location") {
      code' := code' + (StoreComment + "\n");
      assert Classify(line) == StoreLocator;
      AppendOneLine(code, StoreComment);
    } else if Contains(l, "adds") && Contains(l, "cart") {
      code' := code' + (CartComment + "\n");
      assert Classify(line) == AddToCart;
      AppendOneLine(code, CartComment);
    } else if Contains(l, "proceeds to the payment page") {
      code' := code' + (PaymentComment + "\n");
      assert Classify(line) == Payment;
      AppendOneLine(code, PaymentComment);
    } else if StartsWith(l, "when ") {
      code' := code' + ("    // " + line + "\n");
      assert Classify(line) == WhenStep;
      AppendOneLine(code, "    // " + line);
    } else if StartsWith(l, "then ") || StartsWith(l, "and ") {
      code' := code' + ("    // Assert: " + line + "\n");
      assert Classify(line) == AssertStep;
      AppendOneLine(code, "    // Assert: " + line);
    } else {
      code' := code' + ("    // " + line + "\n");
      assert Classify(line) == PlainStep;
      AppendOneLine(code, "    // " + line);
    }
  }

  /** `gherkinToWebdriverIO`: the two opening lines, each step line's fragment
      in source order, and the two closing lines. */
  method GherkinToWebdriverIO(s: Scenario) returns (code: string)
    ensures code == TestBlock(s)
  {
    var opening := OpeningLines(s.title);
    code := opening[0] + "\n" + (opening[1] + "\n");
    OpeningText(s.title);
    assert code == Lines(opening) + ConcatMap(Step, s.lines[..0]);
    for i := 0 to |s.lines|
      invariant code == Lines(opening) + ConcatMap(Step, s.lines[..i])
    {
      Assoc(Lines(opening), ConcatMap(Step, s.lines[..i]), Step(s.lines[i]));
      code := AppendStep(code, s.lines[i]);
      ConcatMapPrefix(Step, s.lines, i);
    }
    assert s.lines[..|s.lines|] == s.lines;
    code := code + ("  });" + "\n" + ("});" + "\n"));
    ClosingText();
  }

  lemma OpeningText(title: string)
    ensures Lines(OpeningLines(title)) == OpeningLines(title)[0] + "\n" + (OpeningLines(title)[1] + "\n")
  {
    var ls := OpeningLines(title);
    ConcatMapCons(Terminate, ls[0], [ls[1]]);
    OneLine(ls[1]);
    assert [ls[0]] + [ls[1]] == ls;
  }

  lemma ClosingText()
    ensures Lines(ClosingLines) == "  });" + "\n" + ("});" + "\n")
  {
    ConcatMapCons(Terminate, "  });", ["});"]);
    OneLine("});");
  }

  /** All the lines of a block: the opening lines, every step's lines in
      source order, then the closing lines. */
  function BlockLines(s: Scenario): seq<string> {
    OpeningLines(s.title) + FlatMap(StepLines, s.lines) + ClosingLines
  }

  /** A block is exactly the two opening lines, four lines per login step and
      one per other step, in the order of the steps, and the two closing lines. */
  lemma {:induction false} TestBlockLines(s: Scenario)
    ensures TestBlock(s) == Lines(BlockLines(s))
    ensures |BlockLines(s)| == 2 + SumMap(StepLineCount, s.lines) + 2
  {
    forall i | 0 <= i < |s.lines| ensures |StepLines(s.lines[i])| == StepLineCount(s.lines[i]) {
    }
    LinesOfFlatMap(StepLines, Step, StepLineCount, s.lines);
    var body := FlatMap(StepLines, s.lines);
    LinesAppend(OpeningLines(s.title) + body, ClosingLines);
    LinesAppend(OpeningLines(s.title), body);
  }

  /** Every block ends with the line `});` and its newline, so the `\n\n`
      of the join leaves two empty lines between consecutive blocks. */
  lemma TestBlockEnd(s: Scenario)
    ensures |TestBlock(s)| >= 4 && TestBlock(s)[|TestBlock(s)| - 4..] == "});\n"
  {
    ClosingText();
    var ab := Lines(OpeningLines(s.title)) + ConcatMap(Step, s.lines);
    var x, y := "  });" + "\n", "});" + "\n";
    Assoc(ab, x, y);
    assert TestBlock(s) == (ab + x) + y;
    assert ((ab + x) + y)[|ab + x|..] == y;
  }

  /** The step lines a WebdriverIO block emits are the Playwright ones, line
      for line, except that the login statements differ and every other line
      is indented two columns further. */
  lemma MatchesPlaywright(line: string)
    ensures |StepLines(line)| == |Playwright.StepLines(line)|
    ensures Classify(line) != Login ==> StepLines(line) == ["  " + Playwright.StepLines(line)[0]]
  {
    assert "  " + "  // " == "    // ";
    match Classify(line)
    case Login =>
    case StoreLocator =>
      Assoc("  ", "  // ", StoreLocatorTodo);
    case AddToCart =>
      Assoc("  ", "  // ", AddToCartTodo);
    case Payment =>
      Assoc("  ", "  // ", PaymentTodo);
    case WhenStep =>
      Assoc("  ", "  // ", line);
    case AssertStep =>
      assert "  " + "  // Assert: " == "    // Assert: ";
      Assoc("  ", "  // Assert: ", line);
    case PlainStep =>
      Assoc("  ", "  // ", line);
  }

  /** No scenarios give the empty text, one scenario gives its block alone,
      and adding a scenario at the end appends `\n\n` and its block. */
  lemma ExportAppend(scenarios: seq<Scenario>, s: Scenario)
    ensures ExportAllWebdriverIO([]) == ""
    ensures ExportAllWebdriverIO([s]) == TestBlock(s)
    ensures scenarios != [] ==> ExportAllWebdriverIO(scenarios + [s]) == ExportAllWebdriverIO(scenarios) + "\n\n" + TestBlock(s)
  {
    if scenarios != [] {
      assert TestBlocks(scenarios + [s]) == TestBlocks(scenarios) + [TestBlock(s)];
      JoinSnoc(TestBlocks(scenarios), TestBlock(s), "\n\n");
    }
  }
}
