/** The structured scenario record every emitter takes as input. */
module Records {

  /** One scenario: its title and its Gherkin step lines, in source order. */
  datatype Scenario = Scenario(title: string, lines: seq<string>)
}
