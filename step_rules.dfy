/** The per-line keyword cascade shared by the Playwright and WebdriverIO
    skeleton generators: each step line is lower-cased and tested against
    seven rules in a fixed order, and the first rule that accepts it decides
    what is emitted for it. */
module StepRules {
  import opened Text

  /** The branches of the cascade. */
  datatype Rule = Login | StoreLocator | AddToCart | Payment | WhenStep | AssertStep | PlainStep

  /** The order in which the rules are tried. */
  const Cascade: seq<Rule> := [Login, StoreLocator, AddToCart, Payment, WhenStep, AssertStep, PlainStep]

  /** Position of a rule in the cascade. */
  function Rank(r: Rule): (k: nat)
    ensures k < |Cascade| && Cascade[k] == r
  {
    match r
    case Login => 0
    case StoreLocator => 1
    case AddToCart => 2
    case Payment => 3
    case WhenStep => 4
    case AssertStep => 5
    case PlainStep => 6
  }

  /** The placeholder texts both generators emit, as comments, for the
      store-locator, cart and payment steps. */
  const StoreLocatorTodo := "TODO: Add store locator interaction here"
  const AddToCartTodo := "TODO: Add menu item to cart"
  const PaymentTodo := "TODO: Proceed to payment page"

  /** Whether a rule's own test, taken in isolation, accepts the lower-cased line `l`. */
  predicate Accepts(r: Rule, l: string) {
    match r
    case Login => Contains(l, "logged in")
    case StoreLocator => Contains(l, "store locator") || Contains(l, "selects a location")
    case AddToCart => Contains(l, "adds") && Contains(l, "cart")
    case Payment => Contains(l, "proceeds to the payment page")
    case WhenStep => StartsWith(l, "when ")
    case AssertStep => StartsWith(l, "then ") || StartsWith(l, "and ")
    case PlainStep => true
  }

  /** `r` accepts `l` and every rule tried before it rejects `l`. */
  ghost predicate FirstAccepting(r: Rule, l: string) {
    Accepts(r, l) && forall j :: 0 <= j < Rank(r) ==> !Accepts(Cascade[j], l)
  }

  /** The if/else-if chain the generators run on `line.toLowerCase()`. */
  function Classify(line: string): Rule {
    var l := ToLower(line);
    if Contains(l, "logged in") then Login
    else if Contains(l, "store locator") || Contains(l, "selects a location") then StoreLocator
    else if Contains(l, "adds") && Contains(l, "cart") then AddToCart
    else if Contains(l, "proceeds to the payment page") then Payment
    else if StartsWith(l, "when ") then WhenStep
    else if StartsWith(l, "then ") || StartsWith(l, "and ") then AssertStep
    else PlainStep
  }

  /** Number of output lines a step line produces in either generator: four
      for a login step, one otherwise. */
  function StepLineCount(line: string): nat {
    if Classify(line) == Login then 4 else 1
  }

  /** The rule the chain picks is the first rule of the cascade that accepts the
      lower-cased line, and no other rule is. */
  lemma ClassifyIsFirstMatch(line: string, r: Rule)
    ensures FirstAccepting(r, ToLower(line)) <==> r == Classify(line)
  {
    var l := ToLower(line);
    assert Cascade[0] == Login && Cascade[1] == StoreLocator && Cascade[2] == AddToCart;
    assert Cascade[3] == Payment && Cascade[4] == WhenStep && Cascade[5] == AssertStep;
    if r == Classify(line) {
      forall j | 0 <= j < Rank(r) ensures !Accepts(Cascade[j], l) {
      }
    }
  }

  /** A line mentioning "logged in" takes the login branch whatever else it mentions. */
  lemma LoginTakesPrecedence(line: string)
    requires Contains(ToLower(line), "logged in")
    ensures Classify(line) == Login
    ensures forall r :: Accepts(r, ToLower(line)) ==> Rank(Login) <= Rank(r)
  {
  }

  /** The first four rules test substrings anywhere in the line, so a line
      such as "when the user adds a pizza to the cart" is a cart step, not a
      when-step, even though it starts with "when ". */
  lemma KeywordRulesBeforePrefixRules(line: string)
    requires StartsWith(ToLower(line), "when ")
    ensures Classify(line) == WhenStep <==> !Accepts(Login, ToLower(line)) && !Accepts(StoreLocator, ToLower(line))
                                            && !Accepts(AddToCart, ToLower(line)) && !Accepts(Payment, ToLower(line))
  {
  }

  /** Matching ignores ASCII case: a line and its lower-cased form are
      classified alike. */
  lemma {:induction false} ClassifyIgnoresCase(line: string)
    ensures Classify(ToLower(line)) == Classify(line)
  {
    ToLowerIdempotent(line);
  }
}
