/** The terminal component: the transcript, the command history and its
    browse cursor, the input line, the welcome banner, the busy flag, the
    autocomplete flag and the set of minimised outputs. */
module Terminal {
  import opened Wrappers
  import opened Text
  import opened Registry
  import opened Dispatcher
  import AutoComplete

  /** One transcript entry; its output is attached once the command has run. */
  datatype Entry = Entry(id: nat, input: string, output: Option<Output>)

  /** What `executeCommand` still holds when it resumes after its delay: the
      id of the entry it created and the raw input. */
  datatype Job = Job(id: nat, input: string)

  function Inputs(cs: seq<Entry>): (r: seq<string>)
    ensures |r| == |cs|
    ensures forall k :: 0 <= k < |cs| ==> r[k] == cs[k].input
  {
    seq(|cs|, k requires 0 <= k < |cs| => cs[k].input)
  }

  predicate IdsIncreasing(cs: seq<Entry>) {
    forall i, j :: 0 <= i < j < |cs| ==> cs[i].id < cs[j].id
  }

  predicate IsSuffix<T(==)>(a: seq<T>, b: seq<T>) {
    |a| <= |b| && b[|b| - |a|..] == a
  }

  /** `prev.map(cmd => cmd.id === id ? { ...cmd, output } : cmd)`. */
  function AttachOutput(cs: seq<Entry>, id: nat, out: Output): (r: seq<Entry>)
    ensures |r| == |cs|
    ensures forall k :: 0 <= k < |cs| ==> r[k].id == cs[k].id && r[k].input == cs[k].input
    ensures forall k :: 0 <= k < |cs| ==> cs[k].id != id ==> r[k] == cs[k]
    ensures forall k :: 0 <= k < |cs| ==> cs[k].id == id ==> r[k].output == Some(out)
  {
    if cs == [] then []
    else
      var head := if cs[0].id == id then cs[0].(output := Some(out)) else cs[0];
      [head] + AttachOutput(cs[1..], id, out)
  }

  /** With distinct ids, attaching rewrites the one entry carrying the id and
      leaves every other entry, and the order, as it was. */
  lemma AttachRewritesOneEntry(cs: seq<Entry>, id: nat, out: Output, k: nat)
    requires IdsIncreasing(cs) && k < |cs| && cs[k].id == id
    ensures AttachOutput(cs, id, out) == cs[..k] + [cs[k].(output := Some(out))] + cs[k + 1..]
  {
    var r := AttachOutput(cs, id, out);
    var s := cs[..k] + [cs[k].(output := Some(out))] + cs[k + 1..];
    assert |r| == |s|;
    forall j | 0 <= j < |r| ensures r[j] == s[j] {
      if j < k {
        assert cs[j].id < id;
      } else if j > k {
        assert cs[j].id > id;
      }
    }
  }

  /** When no entry carries the id (the transcript was cleared meanwhile),
      attaching changes nothing. */
  lemma AttachMissingId(cs: seq<Entry>, id: nat, out: Output)
    requires forall k :: 0 <= k < |cs| ==> cs[k].id != id
    ensures AttachOutput(cs, id, out) == cs
  {
  }

  /** The log invariant of the session: increasing ids below the next id, and
      the transcript's inputs as the latest history entries. */
  predicate LogInvariant(cs: seq<Entry>, history: seq<string>, nextId: nat) {
    && IdsIncreasing(cs)
    && (forall k :: 0 <= k < |cs| ==> cs[k].id < nextId)
    && IsSuffix(Inputs(cs), history)
  }

  /** Submitting a command keeps the log invariant. */
  lemma AppendKeepsLog(cs: seq<Entry>, history: seq<string>, e: Entry, nextId: nat)
    requires LogInvariant(cs, history, nextId) && e.id == nextId
    ensures LogInvariant(cs + [e], history + [e.input], nextId + 1)
  {
    assert Inputs(cs + [e]) == Inputs(cs) + [e.input];
    var h := history + [e.input];
    assert h[|h| - |Inputs(cs + [e])|..] == history[|history| - |Inputs(cs)|..] + [e.input];
  }

  /** Attaching an output keeps the log invariant. */
  lemma AttachKeepsLog(cs: seq<Entry>, history: seq<string>, id: nat, out: Output, nextId: nat)
    requires LogInvariant(cs, history, nextId)
    ensures LogInvariant(AttachOutput(cs, id, out), history, nextId)
  {
    assert Inputs(AttachOutput(cs, id, out)) == Inputs(cs);
  }

  /** Adding an id that is absent, removing one that is present. */
  function Toggled(s: set<nat>, id: nat): (r: set<nat>)
    ensures id in r <==> id !in s
    ensures forall x :: x != id ==> (x in r <==> x in s)
  {
    if id in s then s - {id} else s + {id}
  }

  /** Toggling twice restores the set. */
  lemma ToggleTwice(s: set<nat>, id: nat)
    ensures Toggled(Toggled(s, id), id) == s
  {
  }

  /** ArrowUp's new cursor: the newest entry when not browsing, otherwise one
      entry older, stopping at the oldest. */
  function RecallOlder(index: int, count: nat): (r: int)
    ensures count > 0 && -1 <= index < count ==> 0 <= r < count
    ensures index == -1 ==> r == count - 1
    ensures 0 <= index ==> r <= index && index - r <= 1 && (r == index <==> index == 0)
  {
    if index == -1 then count - 1 else if index - 1 < 0 then 0 else index - 1
  }

  /** ArrowDown's new cursor: one entry newer, or -1 (not browsing) past the newest. */
  function RecallNewer(index: int, count: nat): (r: int)
    ensures -1 <= index < count ==> -1 <= r < count
    ensures 0 <= index < count ==> (r == -1 <==> index == count - 1)
    ensures r != -1 ==> r == index + 1
  {
    if index + 1 >= count then -1 else index + 1
  }

  /** ArrowDown undoes ArrowUp except at the clamp on the oldest entry. */
  lemma OlderThenNewer(index: int, count: nat)
    requires -1 <= index < count && index != 0
    ensures RecallNewer(RecallOlder(index, count), count) == index
  {
  }

  class Session {
    var commands: seq<Entry>
    var currentInput: string
    var isTyping: bool
    var showWelcome: bool
    var commandHistory: seq<string>
    var historyIndex: int
    var showAutoComplete: bool
    var minimizedCommands: set<nat>
    var nextId: nat

    /** The cursor is -1 or on an entry; ids grow along the transcript; the
        transcript's inputs are the latest entries of the history, which
        outlives `clear`. */
    ghost predicate Valid()
      reads this
    {
      && -1 <= historyIndex < |commandHistory|
      && LogInvariant(commands, commandHistory, nextId)
    }

    constructor ()
      ensures Valid()
      ensures commands == [] && currentInput == "" && !isTyping && showWelcome
      ensures commandHistory == [] && historyIndex == -1
      ensures !showAutoComplete && minimizedCommands == {}
    {
      commands := [];
      currentInput := "";
      isTyping := false;
      showWelcome := true;
      commandHistory := [];
      historyIndex := -1;
      showAutoComplete := false;
      minimizedCommands := {};
      nextId := 0;
    }

    /** The state change of the first half of `executeCommand`. */
    twostate predicate Started(input: string, new job: Option<Job>)
      reads this
    {
      if AllSpace(input) then
        && job == None
        && commands == old(commands) && commandHistory == old(commandHistory)
        && currentInput == old(currentInput) && showWelcome == old(showWelcome)
        && historyIndex == old(historyIndex) && isTyping == old(isTyping)
        && nextId == old(nextId)
      else
        && job == Some(Job(old(nextId), input))
        && commands == old(commands) + [Entry(old(nextId), Trim(input), None)]
        && commandHistory == old(commandHistory) + [Trim(input)]
        && currentInput == "" && !showWelcome && historyIndex == -1 && isTyping
        && nextId == old(nextId) + 1
    }

    /** `executeCommand` up to its delay: blank input does nothing; any other
        input is logged, in its trimmed original case, in the transcript and
        the history, and the terminal turns busy. */
    method ExecuteCommand(input: string) returns (job: Option<Job>)
      requires Valid()
      modifies this
      ensures Valid()
      ensures Started(input, job)
      ensures showAutoComplete == old(showAutoComplete) && minimizedCommands == old(minimizedCommands)
    {
      var trimmed := Trim(input);
      var key := Normalize(input);
      if key == [] {
        return None;
      }
      isTyping := true;
      var entry := Entry(nextId, trimmed, None);
      nextId := nextId + 1;
      commands := commands + [entry];
      commandHistory := commandHistory + [trimmed];
      currentInput := "";
      showWelcome := false;
      historyIndex := -1;
      job := Some(Job(entry.id, input));
      AppendKeepsLog(old(commands), old(commandHistory), entry, old(nextId));
    }

    /** `executeCommand` after its delay: `clear` empties the transcript and
        brings back the welcome banner; every other command attaches its
        output to its own entry. Either way the terminal is no longer busy. */
    method ResumeCommand(job: Job)
      requires Valid()
      modifies this
      ensures Valid()
      ensures Dispatch(job.input) == ClearScreen ==> commands == [] && showWelcome
      ensures Dispatch(job.input).Show? ==>
                && commands == AttachOutput(old(commands), job.id, Dispatch(job.input).output)
                && showWelcome == old(showWelcome)
      ensures !isTyping
      ensures commandHistory == old(commandHistory) && historyIndex == old(historyIndex)
      ensures currentInput == old(currentInput) && nextId == old(nextId)
      ensures showAutoComplete == old(showAutoComplete) && minimizedCommands == old(minimizedCommands)
    {
      match Dispatch(job.input)
      case ClearScreen =>
        commands := [];
        showWelcome := true;
        isTyping := false;
      case Show(output) =>
        AttachKeepsLog(commands, commandHistory, job.id, output, nextId);
        commands := AttachOutput(commands, job.id, output);
        isTyping := false;
    }

    /** `handleKeyPress`: Enter submits, the arrows browse the history, Tab and
        printable keys open the autocomplete popup, Escape closes it. */
    method KeyPress(key: string) returns (job: Option<Job>)
      requires Valid()
      modifies this
      ensures Valid()
      ensures minimizedCommands == old(minimizedCommands)
      ensures key == "Enter" && !old(isTyping) ==> Started(old(currentInput), job) && !showAutoComplete
      ensures key != "Enter" || old(isTyping) ==> job == None && commands == old(commands)
      ensures key != "Enter" || old(isTyping) ==> commandHistory == old(commandHistory)
      ensures key == "ArrowUp" && !old(isTyping) && old(commandHistory) != [] ==>
                && historyIndex == RecallOlder(old(historyIndex), |commandHistory|)
                && currentInput == commandHistory[historyIndex]
      ensures key == "ArrowDown" && !old(isTyping) && old(historyIndex) != -1 ==>
                && historyIndex == RecallNewer(old(historyIndex), |commandHistory|)
                && currentInput == (if historyIndex == -1 then "" else commandHistory[historyIndex])
      ensures key in {"ArrowUp", "ArrowDown"} && (old(isTyping) || old(commandHistory) == [] ||
                (key == "ArrowDown" && old(historyIndex) == -1)) ==>
                historyIndex == old(historyIndex) && currentInput == old(currentInput)
      ensures key == "Tab" || |key| == 1 ==> showAutoComplete
      ensures key == "Escape" ==> !showAutoComplete
      ensures key != "Tab" && key != "Escape" && |key| != 1 && (key != "Enter" || old(isTyping)) ==>
                showAutoComplete == old(showAutoComplete)
      ensures key != "Enter" || old(isTyping) ==>
                isTyping == old(isTyping) && showWelcome == old(showWelcome) && nextId == old(nextId)
      ensures key !in {"Enter", "ArrowUp", "ArrowDown"} || old(isTyping) ==>
                historyIndex == old(historyIndex) && currentInput == old(currentInput)
    {
      job := None;
      if key == "Enter" && !isTyping {
        job := ExecuteCommand(currentInput);
        showAutoComplete := false;
      } else if key == "ArrowUp" && !isTyping {
        if |commandHistory| > 0 {
          var newIndex := RecallOlder(historyIndex, |commandHistory|);
          historyIndex := newIndex;
          currentInput := commandHistory[newIndex];
        }
      } else if key == "ArrowDown" && !isTyping {
        if historyIndex != -1 {
          var newIndex := RecallNewer(historyIndex, |commandHistory|);
          if newIndex == -1 {
            historyIndex := -1;
            currentInput := "";
          } else {
            historyIndex := newIndex;
            currentInput := commandHistory[newIndex];
          }
        }
      } else if key == "Tab" {
        showAutoComplete := true;
      } else if key == "Escape" {
        showAutoComplete := false;
      } else if |key| == 1 {
        showAutoComplete := true;
      }
    }

    /** The input's `onChange`: the text follows the field and the popup opens. */
    method Edit(value: string)
      requires Valid()
      modifies this`currentInput, this`showAutoComplete
      ensures Valid()
      ensures currentInput == value && showAutoComplete
    {
      currentInput := value;
      showAutoComplete := true;
    }

    /** `handleAutoCompleteSelect`: a name replaces the input; "" only closes the popup. */
    method AutoCompleteSelect(command: string)
      requires Valid()
      modifies this`currentInput, this`showAutoComplete
      ensures Valid()
      ensures !showAutoComplete
      ensures currentInput == if command != "" then command else old(currentInput)
    {
      if command != "" {
        currentInput := command;
        showAutoComplete := false;
      } else {
        showAutoComplete := false;
      }
    }

    /** `toggleCommandMinimize`: flips whether one entry's output is minimised. */
    method ToggleCommandMinimize(id: nat)
      requires Valid()
      modifies this`minimizedCommands
      ensures Valid()
      ensures minimizedCommands == Toggled(old(minimizedCommands), id)
    {
      if id in minimizedCommands {
        minimizedCommands := minimizedCommands - {id};
      } else {
        minimizedCommands := minimizedCommands + {id};
      }
    }

    /** The popup's `isVisible` prop: open and with some non-blank input. */
    predicate AutoCompleteVisible(): (b: bool)
      reads this
      ensures b <==> showAutoComplete && !AllSpace(currentInput)
      ensures b ==> AutoComplete.Suggestions(currentInput) == AutoComplete.Filter(HelpCommands, currentInput)
    {
      showAutoComplete && Trim(currentInput) != []
    }

    /** While the popup is visible it lists exactly the registry entries whose
        name starts with the lower-cased input. */
    lemma VisibleSuggestionsMatchInput()
      requires AutoCompleteVisible()
      ensures forall c :: c in AutoComplete.Suggestions(currentInput) <==>
                c in HelpCommands && AutoComplete.Matches(c, currentInput)
    {
    }
  }

  /** Submits a lower-case word and lets the command finish. */
  method RunWord(t: Session, word: string)
    requires t.Valid() && word != [] && IsLowerWord(word)
    modifies t
    ensures t.Valid()
    ensures t.commandHistory == old(t.commandHistory) + [word]
    ensures t.historyIndex == -1 && !t.isTyping && t.currentInput == ""
  {
    NormalizeWord(word);
    var job := t.ExecuteCommand(word);
    t.ResumeCommand(job.value);
  }

  /** A fresh terminal after running two non-empty lower-case words. */
  method RunTwo(first: string, second: string) returns (t: Session)
    requires first != [] && IsLowerWord(first) && second != [] && IsLowerWord(second)
    ensures fresh(t) && t.Valid()
    ensures t.commandHistory == [first, second]
    ensures t.historyIndex == -1 && !t.isTyping && t.currentInput == ""
  {
    t := new Session();
    RunWord(t, first);
    assert t.commandHistory == [first];
    RunWord(t, second);
  }

  /** The recall walk-through: after `about` and `skills`, ArrowUp three times
      shows `skills`, `about`, `about` (clamped), and ArrowDown twice shows
      `skills` and then the empty input. */
  method HistoryRecallExample() returns (shown: seq<string>)
    ensures shown == ["skills", "about", "about", "skills", ""]
  {
    var t := RunTwo("about", "skills");
    var job := t.KeyPress("ArrowUp");
    var a := t.currentInput;
    job := t.KeyPress("ArrowUp");
    var b := t.currentInput;
    job := t.KeyPress("ArrowUp");
    var c := t.currentInput;
    job := t.KeyPress("ArrowDown");
    var d := t.currentInput;
    job := t.KeyPress("ArrowDown");
    shown := [a, b, c, d, t.currentInput];
  }

  /** `clear` after two commands: the transcript is empty, the banner is back,
      and the history holds all three inputs. */
  method ClearExample() returns (transcript: seq<Entry>, history: seq<string>, welcome: bool)
    ensures transcript == [] && welcome
    ensures history == ["about", "skills", "clear"]
  {
    var t := RunTwo("about", "skills");
    NormalizeWord("clear");
    assert Dispatch("clear") == ClearScreen;
    var job := t.ExecuteCommand("clear");
    assert t.commandHistory == ["about", "skills", "clear"];
    t.ResumeCommand(job.value);
    transcript, history, welcome := t.commands, t.commandHistory, t.showWelcome;
  }
}
