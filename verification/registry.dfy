/** The command registry: the fixed, ordered table of command names and
    descriptions that the help and ls listings and the autocomplete popup show. */
module Registry {
  import opened Text

  datatype CommandSpec = CommandSpec(command: string, description: string)

  const HelpCommands: seq<CommandSpec> := [
    CommandSpec("help", "Show this help message"),
    CommandSpec("about", "Display information about me"),
    CommandSpec("skills", "Show my technical skills"),
    CommandSpec("projects", "List my featured projects"),
    CommandSpec("contact", "Get in touch with me"),
    CommandSpec("resume", "Download my resume"),
    CommandSpec("clear", "Clear the terminal screen"),
    CommandSpec("whoami", "Display current user information"),
    CommandSpec("date", "Show current date and time"),
    CommandSpec("ls", "List available commands")
  ]

  function Names(cmds: seq<CommandSpec>): (names: seq<string>)
    ensures |names| == |cmds|
    ensures forall k :: 0 <= k < |cmds| ==> names[k] == cmds[k].command
  {
    seq(|cmds|, k requires 0 <= k < |cmds| => cmds[k].command)
  }

  /** The registry lists exactly these ten names, in this order. */
  lemma RegistryOrder()
    ensures Names(HelpCommands)
         == ["help", "about", "skills", "projects", "contact", "resume", "clear", "whoami", "date", "ls"]
  {
  }

  /** Command names serve as list keys, so no two entries share one. */
  lemma RegistryNamesDistinct()
    ensures forall i, j :: 0 <= i < j < |HelpCommands| ==> HelpCommands[i].command != HelpCommands[j].command
  {
    RegistryOrder();
  }

  /** Every name is a non-empty lower-case word, so lower-casing it changes nothing. */
  lemma RegistryNamesLowerCase()
    ensures forall k :: 0 <= k < |HelpCommands| ==>
              |HelpCommands[k].command| > 0 && IsLowerWord(HelpCommands[k].command)
    ensures forall k :: 0 <= k < |HelpCommands| ==> ToLower(HelpCommands[k].command) == HelpCommands[k].command
  {
    forall k | 0 <= k < |HelpCommands| ensures ToLower(HelpCommands[k].command) == HelpCommands[k].command {
      LowerOfLowerWord(HelpCommands[k].command);
    }
  }

  /** `help` is the only entry whose name starts with `h`. */
  lemma OnlyHelpStartsWithH()
    ensures HelpCommands[0].command == "help"
    ensures forall k :: 1 <= k < |HelpCommands| ==> HelpCommands[k].command[0] != 'h'
  {
    RegistryOrder();
  }
}
