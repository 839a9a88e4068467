/** The autocomplete popup: the suggestion filter over the command registry,
    the highlighted entry, and the keys that move, pick or dismiss it. */
module AutoComplete {
  import opened Wrappers
  import opened Text
  import opened Registry

  /** The filter's test: the lower-cased name starts with the lower-cased,
      untrimmed input. That is, the input is no longer than the name and
      agrees with its start letter by letter, ignoring case. */
  predicate Matches(c: CommandSpec, input: string): (b: bool)
    ensures b <==> |input| <= |c.command| && PrefixIgnoringCase(c.command, input)
  {
    StartsWithLower(c.command, input);
    StartsWith(ToLower(c.command), ToLower(input))
  }

  /** The first `|input|` characters of `name` and `input` agree up to case. */
  predicate PrefixIgnoringCase(name: string, input: string)
    requires |input| <= |name|
  {
    forall k :: 0 <= k < |input| ==> LowerChar(name[k]) == LowerChar(input[k])
  }

  lemma StartsWithLower(name: string, input: string)
    ensures StartsWith(ToLower(name), ToLower(input))
        <==> |input| <= |name| && PrefixIgnoringCase(name, input)
  {
    var n, p := ToLower(name), ToLower(input);
    if |input| <= |name| && PrefixIgnoringCase(name, input) {
      assert n == p + n[|p|..];
    }
    if StartsWith(n, p) {
      var rest :| n == p + rest;
      assert forall k :: 0 <= k < |p| ==> n[k] == p[k];
    }
  }

  /** `r` is `s` with some entries dropped and the rest kept in order. */
  predicate IsSubsequence<T(==)>(r: seq<T>, s: seq<T>)
    decreases |s|
  {
    if r == [] then true
    else if s == [] then false
    else if r[0] == s[0] then IsSubsequence(r[1..], s[1..])
    else IsSubsequence(r, s[1..])
  }

  /** `cmds.filter(cmd => cmd.command.toLowerCase().startsWith(input.toLowerCase()))`. */
  function Filter(cmds: seq<CommandSpec>, input: string): (r: seq<CommandSpec>)
    ensures forall c :: c in r <==> c in cmds && Matches(c, input)
    ensures IsSubsequence(r, cmds)
    ensures |r| <= |cmds|
  {
    if cmds == [] then []
    else if Matches(cmds[0], input) then [cmds[0]] + Filter(cmds[1..], input)
    else
      var rest := Filter(cmds[1..], input);
      assert rest != [] ==> rest[0] != cmds[0];
      rest
  }

  /** What the popup lists for an input: the filter for non-blank input, the
      whole registry for blank input. */
  function Suggestions(input: string): (r: seq<CommandSpec>)
    ensures AllSpace(input) ==> r == HelpCommands
    ensures !AllSpace(input) ==> forall c :: c in r <==> c in HelpCommands && Matches(c, input)
    ensures IsSubsequence(r, HelpCommands)
  {
    if Trim(input) != [] then Filter(HelpCommands, input)
    else
      SubsequenceOfSelf(HelpCommands);
      HelpCommands
  }

  lemma {:induction false} SubsequenceOfSelf<T>(s: seq<T>)
    ensures IsSubsequence(s, s)
    decreases |s|
  {
    if s != [] {
      SubsequenceOfSelf(s[1..]);
    }
  }

  /** Every name starts with the empty string, so the empty input keeps all
      entries in their order. */
  lemma {:induction false} FilterEmptyInput(cmds: seq<CommandSpec>)
    ensures Filter(cmds, "") == cmds
    decreases |cmds|
  {
    if cmds != [] {
      assert ToLower(cmds[0].command) == [] + ToLower(cmds[0].command);
      FilterEmptyInput(cmds[1..]);
    }
  }

  /** The prefix test uses the untrimmed input: input that starts with
      whitespace matches no registry entry. */
  lemma LeadingSpaceMatchesNothing(input: string)
    requires |input| > 0 && IsSpace(input[0])
    ensures Filter(HelpCommands, input) == []
  {
    RegistryNamesLowerCase();
    forall k | 0 <= k < |HelpCommands| ensures !Matches(HelpCommands[k], input) {
      var c := HelpCommands[k];
      assert ToLower(c.command)[0] == c.command[0];
      assert ToLower(input)[0] == input[0];
    }
    FilterNoneMatch(HelpCommands, input);
  }

  lemma {:induction false} FilterNoneMatch(cmds: seq<CommandSpec>, input: string)
    requires forall k :: 0 <= k < |cmds| ==> !Matches(cmds[k], input)
    ensures Filter(cmds, input) == []
    decreases |cmds|
  {
    if cmds != [] {
      FilterNoneMatch(cmds[1..], input);
    }
  }

  lemma ExperienceNotRegistered()
    ensures forall c :: c in HelpCommands ==> c.command != "experience"
  {
    forall c | c in HelpCommands ensures c.command != "experience" {
      var k :| 0 <= k < |HelpCommands| && HelpCommands[k] == c;
      assert |c.command| != |"experience"|;
    }
  }

  /** `experience` is a command but not a registry entry, so it is never suggested. */
  lemma ExperienceNeverSuggested(input: string)
    ensures forall c :: c in Suggestions(input) ==> c.command != "experience"
  {
    ExperienceNotRegistered();
    SubsequenceMembers(Suggestions(input), HelpCommands);
  }

  /** Typing `h` or `H` suggests `help` and nothing else. */
  lemma SuggestionsForH(input: string)
    requires ToLower(input) == "h"
    ensures Suggestions(input) == [HelpCommands[0]]
  {
    assert LowerChar(input[0]) == 'h';
    assert !IsSpace(input[0]);
    assert Suggestions(input) == Filter(HelpCommands, input);
    RegistryNamesLowerCase();
    var help := HelpCommands[0];
    assert ToLower(help.command) == "help";
    assert StartsWith("help", "h");
    assert Matches(help, input);
    var rest := HelpCommands[1..];
    OnlyHelpStartsWithH();
    forall k | 0 <= k < |rest| ensures !Matches(rest[k], input) {
      assert rest[k] == HelpCommands[k + 1];
    }
    FilterNoneMatch(rest, input);
  }

  /** The highlight lies on an entry, or is 0 or -1 when there are no entries. */
  predicate InRange(i: int, n: nat) {
    if n > 0 then 0 <= i < n else -1 <= i <= 0
  }

  /** ArrowDown: one entry down, from the last back to the first. */
  function SelectNext(i: int, n: nat): (j: int)
    ensures InRange(i, n) ==> InRange(j, n)
    ensures 0 <= i < n ==> j == (i + 1) % n
  {
    if i < n - 1 then i + 1 else 0
  }

  /** ArrowUp: one entry up, from the first round to the last. */
  function SelectPrev(i: int, n: nat): (j: int)
    ensures InRange(i, n) ==> InRange(j, n)
    ensures 0 <= i < n ==> j == (i - 1) % n
  {
    if i > 0 then i - 1 else n - 1
  }

  /** Up undoes down and down undoes up. */
  lemma SelectRoundTrip(i: int, n: nat)
    requires 0 <= i < n
    ensures SelectPrev(SelectNext(i, n), n) == i
    ensures SelectNext(SelectPrev(i, n), n) == i
  {
  }

  /** The popup component. `input` and `visible` are its props; `filtered` and
      `selectedIndex` its state. */
  class Popup {
    var input: string
    var visible: bool
    var filtered: seq<CommandSpec>
    var selectedIndex: int

    ghost predicate Valid()
      reads this
    {
      filtered == Suggestions(input) && InRange(selectedIndex, |filtered|)
    }

    /** Mounting runs the filter once for the initial input. */
    constructor (input: string, visible: bool)
      ensures Valid()
      ensures this.input == input && this.visible == visible
      ensures filtered == Suggestions(input) && selectedIndex == 0
    {
      this.input := input;
      this.visible := visible;
      filtered := Suggestions(input);
      selectedIndex := 0;
    }

    /** A render with new props: the filter reruns, and the highlight goes back
        to the first entry, only when the input text changed. */
    method Receive(newInput: string, newVisible: bool)
      requires Valid()
      modifies this
      ensures Valid()
      ensures input == newInput && visible == newVisible
      ensures filtered == Suggestions(newInput)
      ensures selectedIndex == if newInput != old(input) then 0 else old(selectedIndex)
    {
      visible := newVisible;
      if newInput != input {
        input := newInput;
        filtered := Suggestions(newInput);
        selectedIndex := 0;
      }
    }

    /** The document-level key handler. The result is the argument passed to
        `onSelect`, if it is called: a command name, or "" to dismiss. */
    method KeyDown(key: string) returns (selected: Option<string>)
      requires Valid()
      modifies this`selectedIndex
      ensures Valid()
      ensures !visible ==> selected == None && selectedIndex == old(selectedIndex)
      ensures visible && key == "ArrowDown" ==>
                selected == None && selectedIndex == SelectNext(old(selectedIndex), |filtered|)
      ensures visible && key == "ArrowUp" ==>
                selected == None && selectedIndex == SelectPrev(old(selectedIndex), |filtered|)
      ensures visible && key == "Enter" ==>
                && selectedIndex == old(selectedIndex)
                && (selected.Some? <==> filtered != [])
                && (0 <= selectedIndex < |filtered| ==> selected == Some(filtered[selectedIndex].command))
      ensures visible && key == "Escape" ==> selected == Some("") && selectedIndex == old(selectedIndex)
      ensures key !in {"ArrowDown", "ArrowUp", "Enter", "Escape"} ==>
                selected == None && selectedIndex == old(selectedIndex)
    {
      selected := None;
      if !visible {
        return;
      }
      match key
      case "ArrowDown" =>
        selectedIndex := SelectNext(selectedIndex, |filtered|);
      case "ArrowUp" =>
        selectedIndex := SelectPrev(selectedIndex, |filtered|);
      case "Enter" =>
        if 0 <= selectedIndex < |filtered| {
          selected := Some(filtered[selectedIndex].command);
        }
      case "Escape" =>
        selected := Some("");
      case _ =>
    }

    /** The popup draws nothing when hidden or when no entry matches: it is
        drawn exactly when it is visible and its input is blank or some
        registry entry matches it. */
    predicate Rendered(): (b: bool)
      requires Valid()
      reads this
      ensures b <==> visible && (AllSpace(input) || exists c :: c in HelpCommands && Matches(c, input))
    {
      assert HelpCommands[0] in HelpCommands;
      assert filtered != [] ==> filtered[0] in filtered;
      visible && |filtered| > 0
    }

    /** Whenever the popup is drawn, the highlight is on one of its entries. */
    lemma RenderedHighlight()
      requires Valid() && Rendered()
      ensures 0 <= selectedIndex < |filtered|
      ensures filtered[selectedIndex] in HelpCommands
    {
      SubsequenceMembers(filtered, HelpCommands);
    }
  }

  lemma {:induction false} SubsequenceMembers<T>(r: seq<T>, s: seq<T>)
    requires IsSubsequence(r, s)
    ensures forall x :: x in r ==> x in s
    decreases |s|
  {
    if r != [] && s != [] {
      if r[0] == s[0] {
        SubsequenceMembers(r[1..], s[1..]);
        assert forall x :: x in r ==> x == r[0] || x in r[1..];
      } else {
        SubsequenceMembers(r, s[1..]);
      }
    }
  }

  /** No element occurs twice. */
  predicate Distinct<T(==)>(s: seq<T>) {
    forall i, j :: 0 <= i < j < |s| ==> s[i] != s[j]
  }

  /** In a sequence without repeats, a subsequence is fixed by its members:
      order and multiplicity are those of the sequence. */
  lemma {:induction false} SubsequenceDetermined<T>(r1: seq<T>, r2: seq<T>, s: seq<T>)
    requires Distinct(s)
    requires IsSubsequence(r1, s) && IsSubsequence(r2, s)
    requires forall x :: x in r1 <==> x in r2
    ensures r1 == r2
    decreases |s|
  {
    if s == [] {
      assert r1 == [] && r2 == [];
    } else {
      var t := s[1..];
      assert Distinct(t) by {
        forall i, j | 0 <= i < j < |t| ensures t[i] != t[j] {
          assert t[i] == s[i + 1] && t[j] == s[j + 1];
        }
      }
      assert s[0] !in t;
      if s[0] in r1 {
        SubsequenceHead(r1, s);
        SubsequenceHead(r2, s);
        SubsequenceMembers(r1[1..], t);
        SubsequenceMembers(r2[1..], t);
        assert forall x :: x in r1 <==> x == s[0] || x in r1[1..];
        assert forall x :: x in r2 <==> x == s[0] || x in r2[1..];
        SubsequenceDetermined(r1[1..], r2[1..], t);
        assert r1 == [r1[0]] + r1[1..] && r2 == [r2[0]] + r2[1..];
      } else {
        SubsequenceSkip(r1, s);
        SubsequenceSkip(r2, s);
        SubsequenceDetermined(r1, r2, t);
      }
    }
  }

  /** A subsequence that holds the head of a repeat-free sequence starts with it. */
  lemma SubsequenceHead<T>(r: seq<T>, s: seq<T>)
    requires Distinct(s) && s != [] && s[0] in r && s[0] !in s[1..]
    requires IsSubsequence(r, s)
    ensures r != [] && r[0] == s[0] && IsSubsequence(r[1..], s[1..])
  {
    if r[0] != s[0] {
      SubsequenceMembers(r, s[1..]);
    }
  }

  /** A subsequence without the head of the sequence skips it. */
  lemma SubsequenceSkip<T>(r: seq<T>, s: seq<T>)
    requires s != [] && s[0] !in r
    requires IsSubsequence(r, s)
    ensures IsSubsequence(r, s[1..])
  {
    if r != [] {
      assert r[0] != s[0];
    }
  }

  /** The registry has no repeated entry. */
  lemma RegistryDistinct()
    ensures Distinct(HelpCommands)
  {
    RegistryNamesDistinct();
  }

  /** The suggestion list is the only order-preserving selection of registry
      entries with its members: each matching entry appears once, in
      registry order. */
  lemma SuggestionsDetermined(input: string, r: seq<CommandSpec>)
    requires IsSubsequence(r, HelpCommands)
    requires forall c :: c in r <==> c in Suggestions(input)
    ensures r == Suggestions(input)
  {
    RegistryDistinct();
    SubsequenceDetermined(r, Suggestions(input), HelpCommands);
  }
}
