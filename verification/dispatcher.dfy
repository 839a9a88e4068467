/** The pure half of the terminal's `executeCommand`: normalising the input
    and choosing what the command shows. The rendered content of each
    command is kept abstract: a tag per command. */
module Dispatcher {
  import opened Text
  import opened Registry

  /** What a command leaves in the transcript. `DateNow` stands for the wall-clock
      text, which is not part of this model. */
  datatype Output =
    | HelpList | AboutText | SkillsList | ProjectsList | ExperienceList
    | ContactInfo | WhoamiCard | DateNow | LsGrid | ResumeLink
    | NotFound(message: string)

  /** `clear` wipes the screen and shows nothing; every other input shows an output. */
  datatype Action = Show(output: Output) | ClearScreen

  /** The eleven names the switch handles. */
  const HandledNames: seq<string> :=
    ["help", "about", "skills", "projects", "experience", "contact", "clear", "whoami", "date", "ls", "resume"]

  const NotFoundPrefix: string := "Command not found: \""
  const NotFoundSuffix: string := "\". Type 'help' to see available commands."

  /** `input.trim().toLowerCase()`. */
  function Normalize(input: string): (key: string)
    ensures key == [] <==> AllSpace(input)
    ensures |key| == |Trim(input)|
  {
    ToLower(Trim(input))
  }

  /** The error text, quoting the trimmed input in its original case. */
  function NotFoundMessage(trimmed: string): (m: string)
    ensures |m| == |NotFoundPrefix| + |trimmed| + |NotFoundSuffix|
    ensures m[..|NotFoundPrefix|] == NotFoundPrefix
    ensures m[|NotFoundPrefix|..|NotFoundPrefix| + |trimmed|] == trimmed
    ensures m[|NotFoundPrefix| + |trimmed|..] == NotFoundSuffix
  {
    NotFoundPrefix + trimmed + NotFoundSuffix
  }

  /** The switch of `executeCommand` on the normalised key; `trimmed` is the
      trimmed input in its original case, which the error branch quotes. */
  function Route(key: string, trimmed: string): (a: Action)
    ensures a == ClearScreen <==> key == "clear"
    ensures a.Show? && a.output.NotFound? <==> key !in HandledNames
    ensures a.Show? && a.output.NotFound? ==> a.output.message == NotFoundMessage(trimmed)
  {
    match key
    case "help" => Show(HelpList)
    case "about" => Show(AboutText)
    case "skills" => Show(SkillsList)
    case "projects" => Show(ProjectsList)
    case "experience" => Show(ExperienceList)
    case "contact" => Show(ContactInfo)
    case "clear" => ClearScreen
    case "whoami" => Show(WhoamiCard)
    case "date" => Show(DateNow)
    case "ls" => Show(LsGrid)
    case "resume" => Show(ResumeLink)
    case _ => Show(NotFound(NotFoundMessage(trimmed)))
  }

  /** A handled name picks its branch whatever the quoted text is. */
  lemma RouteIgnoresTrimmed(key: string, t1: string, t2: string)
    requires key in HandledNames
    ensures Route(key, t1) == Route(key, t2)
  {
  }

  /** Two different handled names never share a branch. */
  lemma RouteDistinct(k1: string, k2: string, t: string)
    requires k1 in HandledNames && k2 in HandledNames && k1 != k2
    ensures Route(k1, t) != Route(k2, t)
  {
  }

  /** What a non-blank input leads to. */
  function Dispatch(input: string): (a: Action)
    ensures a == ClearScreen <==> Normalize(input) == "clear"
    ensures a.Show? && a.output.NotFound? <==> Normalize(input) !in HandledNames
    ensures a.Show? && a.output.NotFound? ==> a.output.message == NotFoundMessage(Trim(input))
  {
    Route(Normalize(input), Trim(input))
  }

  /** Every handled name is a non-empty lower-case word. */
  lemma HandledNameIsWord(name: string)
    requires name in HandledNames
    ensures |name| > 0 && IsLowerWord(name)
  {
  }

  /** The branch depends only on the trimmed, lower-cased input. */
  lemma DispatchByKey(a: string, b: string)
    requires Normalize(a) == Normalize(b) && Normalize(a) in HandledNames
    ensures Dispatch(a) == Dispatch(b)
  {
    RouteIgnoresTrimmed(Normalize(a), Trim(a), Trim(b));
  }

  /** A padded case variant of a lower-case word normalises to that word, and
      trims to the variant itself. */
  lemma {:induction false} NormalizeVariant(p: string, v: string, q: string)
    requires AllSpace(p) && AllSpace(q)
    requires |v| > 0 && IsLowerWord(ToLower(v))
    ensures Trim(p + v + q) == v
    ensures Normalize(p + v + q) == ToLower(v)
  {
    LowerWordHasNoSpace(v);
    TrimPadded(p, v, q);
  }

  /** A lower-case word is its own normal form. */
  lemma NormalizeWord(name: string)
    requires IsLowerWord(name)
    ensures Trim(name) == name && Normalize(name) == name
  {
    assert ToLower(name) == name;
    if name != [] {
      NormalizeVariant([], name, []);
      assert [] + name + [] == name;
    }
  }

  /** Inputs whose normal forms are two different handled names reach two
      different branches. */
  lemma DispatchDistinct(a: string, b: string)
    requires Normalize(a) in HandledNames && Normalize(b) in HandledNames
    requires Normalize(a) != Normalize(b)
    ensures Dispatch(a) != Dispatch(b)
  {
    RouteDistinct(Normalize(a), Normalize(b), Trim(a));
    RouteIgnoresTrimmed(Normalize(b), Trim(a), Trim(b));
  }

  /** Each handled name, in any letter case and with any whitespace around it,
      reaches its own branch and never the error branch. */
  lemma {:induction false} VariantReachesBranch(p: string, v: string, q: string, name: string)
    requires AllSpace(p) && AllSpace(q)
    requires name in HandledNames && ToLower(v) == name
    ensures Normalize(p + v + q) == name
    ensures Dispatch(p + v + q) == Dispatch(name)
    ensures !(Dispatch(p + v + q).Show? && Dispatch(p + v + q).output.NotFound?)
  {
    HandledNameIsWord(name);
    NormalizeVariant(p, v, q);
    NormalizeWord(name);
    RouteIgnoresTrimmed(name, v, name);
  }

  /** Every registry entry is handled; `experience` is handled but is not in the registry. */
  lemma RegistryIsHandled()
    ensures forall c :: c in HelpCommands ==> c.command in HandledNames
    ensures "experience" in HandledNames && "experience" !in Names(HelpCommands)
    ensures |HandledNames| == |HelpCommands| + 1
  {
    RegistryOrder();
    forall c | c in HelpCommands ensures c.command in HandledNames {
      var k :| 0 <= k < |HelpCommands| && HelpCommands[k] == c;
      assert c.command == Names(HelpCommands)[k];
    }
  }

  /** An unknown command, whatever whitespace surrounds it, is reported with
      exactly the typed text between the padding, in its original case. */
  lemma {:induction false} UnknownCommandQuoted(p: string, w: string, q: string)
    requires AllSpace(p) && AllSpace(q) && Tight(w) && w != []
    requires ToLower(w) !in HandledNames
    ensures Dispatch(p + w + q) == Show(NotFound(NotFoundMessage(w)))
  {
    TrimPadded(p, w, q);
  }
}
