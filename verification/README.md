# Terminal portfolio: a Dafny model of its state machines

The portfolio is a web page that behaves like a terminal. A command line
accepts eleven commands (`help`, `about`, `skills`, `projects`, `experience`,
`contact`, `resume`, `clear`, `whoami`, `date`, `ls`) and prints a block of
content for each. Around it sit a command history browsed with the arrow keys,
an autocomplete popup over the command registry, a typewriter text reveal, and
a loading splash screen. This project models that logic and proves its rules:

- `text.dfy` (module `Text`) holds the string helpers the components rely on:
  `trim` over an explicit whitespace predicate, `toLowerCase` over ASCII
  letters, and `startsWith`.
- `registry.dfy` (module `Registry`) holds the `helpCommands` table, a constant
  sequence of ten name/description pairs.
- `dispatcher.dfy` (module `Dispatcher`) is the pure half of `executeCommand`.
  It normalises the input and chooses one of the eleven branches or the error
  branch. Each command's rendered content is an abstract tag (`Output`).
- `terminal.dfy` (module `Terminal`) holds the class `Session`, whose fields
  are the terminal's state. Its methods are:
  - `executeCommand`, split at its 500 ms wait into `ExecuteCommand`, which
    returns a `Job`, and `ResumeCommand`;
  - `handleKeyPress`, as `KeyPress`;
  - the input's `onChange`, as `Edit`;
  - `handleAutoCompleteSelect` and `toggleCommandMinimize`.
- `autocomplete.dfy` (module `AutoComplete`) models the suggestion filter as
  functions. The popup's props and state form the class `Popup`, with the
  selection keys.
- `typing.dfy` (module `TypingEffect`) models the typewriter as the class
  `Typewriter`. It reveals one character per `Tick` and records its callbacks
  (typing sound, bell, `onComplete`, each only when it was given) as a log of
  `Cue`s.
- `loading.dfy` (module `LoadingScreen`) models the splash screen as the class
  `Loader`. It has one tick method per interval. Ghost tick counters tie its
  state to closed forms.

Transcript ids are a counter, `nextId`, where the component uses
`Date.now()`. With the counter, ids are distinct and increase along the
transcript.

The stored input keeps its original case: the transcript and the history hold
`input.trim()`, while the branch is chosen on the lower-cased form.

On `clear` the code appends the entry and the history item first, before the
wait (`src/components/Terminal.tsx:119-120`). After the wait it empties the
transcript (`src/components/Terminal.tsx:393-397`). So `clear` leaves an empty transcript, and the history keeps
the `clear` item (`Session.ResumeCommand`, `ClearExample`).

## Model

| member | source | states |
|---|---|---|
| Text.Trim | src/components/Terminal.tsx:104 | the result has no whitespace at either end, and is empty exactly when the input is all whitespace |
| Text.TrimRemovesPadding | src/components/Terminal.tsx:104 | the input is the result with only whitespace around it |
| Text.TrimStartSpec | src/components/Terminal.tsx:104 | trimming the start removes a whitespace prefix and stops at the first other character |
| Text.TrimEndSpec | src/components/Terminal.tsx:104 | trimming the end removes a whitespace suffix and stops at the last other character |
| Text.TrimPadded | src/components/Terminal.tsx:104 | trimming any whitespace padding off a string without whitespace at its ends gives that string back |
| Text.TrimIdempotent | src/components/Terminal.tsx:114 | trimming twice is trimming once |
| Text.LowerChar | src/components/Terminal.tsx:104 | the result is never an upper-case ASCII letter; upper-case letters map to their lower-case letter, and every other character is unchanged |
| Text.ToLower | src/components/Terminal.tsx:104 | lower-casing keeps the length and maps every character separately |
| Text.LowerOfLowerWord | src/data/portfolio.ts:134-145 | lower-casing a lower-case word changes nothing |
| Text.LowerWordHasNoSpace | src/components/Terminal.tsx:104 | a string whose lower-case form is a word holds no whitespace |
| Text.StartsWith | src/components/AutoComplete.tsx:26 | true exactly when the string is the prefix followed by some rest |
| Registry.Names | src/data/portfolio.ts:134-145 | the names of the table, one per entry, in table order |
| Registry.RegistryOrder | src/data/portfolio.ts:134-145 | the registry table `HelpCommands` lists exactly help, about, skills, projects, contact, resume, clear, whoami, date, ls in that order |
| Registry.RegistryNamesDistinct | src/data/portfolio.ts:134-145 | no two entries share a name, so names can serve as list keys |
| Registry.RegistryNamesLowerCase | src/data/portfolio.ts:134-145 | every name is a non-empty lower-case word, and lower-casing it is the identity |
| Registry.OnlyHelpStartsWithH | src/data/portfolio.ts:134-145 | `help` is the first entry and the only name starting with `h` |
| Dispatcher.Normalize | src/components/Terminal.tsx:104 | the key is empty exactly when the input is blank, and it is as long as the trimmed input |
| Dispatcher.NotFoundMessage | src/components/Terminal.tsx:473-479 | the error text is the fixed prefix, the quoted text verbatim, then the fixed suffix |
| Dispatcher.Route | src/components/Terminal.tsx:131-479 | the clear branch is taken exactly for `clear`; the error branch is taken exactly for keys outside the eleven names, and it quotes the trimmed input |
| Dispatcher.RouteIgnoresTrimmed | src/components/Terminal.tsx:131-472 | for a handled name, the branch does not depend on the quoted text |
| Dispatcher.RouteDistinct | src/components/Terminal.tsx:131-472 | two different handled names never reach the same branch |
| Dispatcher.Dispatch | src/components/Terminal.tsx:104-131 | the same three facts, in terms of the raw input's normal form and trimmed form |
| Dispatcher.DispatchDistinct | src/components/Terminal.tsx:104-131 | inputs whose normal forms are two different handled names reach two different branches |
| Dispatcher.HandledNameIsWord | src/components/Terminal.tsx:131-459 | every handled name is a non-empty lower-case word |
| Dispatcher.DispatchByKey | src/components/Terminal.tsx:104-131 | two inputs with the same handled normal form reach the same branch |
| Dispatcher.NormalizeVariant | src/components/Terminal.tsx:104 | a whitespace-padded case variant of a word trims to the variant and normalises to its lower-case form |
| Dispatcher.NormalizeWord | src/components/Terminal.tsx:104 | a lower-case word is its own trimmed and normal form |
| Dispatcher.VariantReachesBranch | src/components/Terminal.tsx:104-472 | any case or whitespace variant of a handled name reaches that name's branch and never the error branch |
| Dispatcher.RegistryIsHandled | src/data/portfolio.ts:134-145 | every registry name has a branch; `experience` has a branch but no registry entry; there is exactly one more branch than entries |
| Dispatcher.UnknownCommandQuoted | src/components/Terminal.tsx:473-479 | an unknown command with any padding is reported with exactly the text between the padding, in its original case |
| AutoComplete.Filter | src/components/AutoComplete.tsx:25-27 | an entry is kept exactly when it is in the input list and its lower-cased name starts with the lower-cased input (sound and complete); the result is an order-preserving subsequence |
| AutoComplete.Matches | src/components/AutoComplete.tsx:26 | an entry matches exactly when the input is no longer than its name and agrees with the name's start letter by letter, ignoring ASCII case (the input is not trimmed) |
| AutoComplete.StartsWithLower | src/components/AutoComplete.tsx:26 | `startsWith` on the two lower-cased strings is the letter-by-letter case-insensitive prefix test |
| AutoComplete.Suggestions | src/components/AutoComplete.tsx:23-34 | blank input lists the whole registry in order; other input lists exactly the matching entries, in registry order |
| AutoComplete.SuggestionsDetermined | src/components/AutoComplete.tsx:24-33 | the suggestion list is the only order-preserving selection of registry entries with its members, so each matching entry appears exactly once and in registry order |
| AutoComplete.SubsequenceDetermined | src/components/AutoComplete.tsx:25-27 | in a sequence without repeats, two order-preserving selections with the same members are equal |
| AutoComplete.RegistryDistinct | src/data/portfolio.ts:134-145 | no registry entry occurs twice |
| AutoComplete.FilterEmptyInput | src/components/AutoComplete.tsx:25-27 | the empty input keeps every entry in order |
| AutoComplete.FilterNoneMatch | src/components/AutoComplete.tsx:25-27 | when no entry matches, the filter is empty |
| AutoComplete.LeadingSpaceMatchesNothing | src/components/AutoComplete.tsx:24-27 | the prefix test uses the untrimmed input, so input that starts with whitespace matches no entry |
| AutoComplete.ExperienceNeverSuggested | src/components/AutoComplete.tsx:23-34 | `experience` is never suggested |
| AutoComplete.ExperienceNotRegistered | src/data/portfolio.ts:134-145 | no registry entry is named `experience` |
| AutoComplete.SuggestionsForH | src/components/AutoComplete.tsx:23-34 | typing `h` or `H` suggests `help` alone |
| AutoComplete.SubsequenceMembers | src/components/AutoComplete.tsx:25-27 | every entry of a filtered list is a registry entry |
| AutoComplete.SelectNext | src/components/AutoComplete.tsx:41-46 | ArrowDown keeps the highlight in range and moves it to `(i + 1) mod n`: the last entry wraps to the first |
| AutoComplete.SelectPrev | src/components/AutoComplete.tsx:47-52 | ArrowUp keeps the highlight in range and moves it to `(i - 1) mod n`: the first entry wraps to the last |
| AutoComplete.SelectRoundTrip | src/components/AutoComplete.tsx:41-52 | up undoes down and down undoes up |
| AutoComplete.Popup.constructor | src/components/AutoComplete.tsx:20-34 | on mount the list is the suggestions for the input and the highlight is on the first entry |
| AutoComplete.Popup.Receive | src/components/AutoComplete.tsx:23-34 | a changed input reruns the filter and resets the highlight to 0; the same input keeps the highlight |
| AutoComplete.Popup.KeyDown | src/components/AutoComplete.tsx:36-66 | hidden, every key is ignored; the arrows wrap the highlight; Enter selects the highlighted name exactly when the list is non-empty; Escape selects `""`; other keys do nothing |
| AutoComplete.Popup.RenderedHighlight | src/components/AutoComplete.tsx:73-75 | whenever the popup is drawn, the highlight is on a listed registry entry |
| AutoComplete.Popup.Rendered | src/components/AutoComplete.tsx:73-75 | the popup is drawn exactly when it is visible and its input is blank or matches some registry entry |
| Terminal.AttachOutput | src/components/Terminal.tsx:483-486 | attaching keeps every id and input, changes no entry with another id, and sets the output of the entry with the id |
| Terminal.AttachRewritesOneEntry | src/components/Terminal.tsx:483-486 | with increasing ids, exactly one entry is rewritten; all others, and the order, stay as they were |
| Terminal.AttachMissingId | src/components/Terminal.tsx:483-486 | when no entry has the id, attaching changes nothing |
| Terminal.AppendKeepsLog | src/components/Terminal.tsx:112-120 | appending an entry and its history item keeps ids increasing and the transcript's inputs as the newest history items |
| Terminal.AttachKeepsLog | src/components/Terminal.tsx:483-486 | attaching an output keeps the same invariant |
| Terminal.Toggled | src/components/Terminal.tsx:92-101 | the id's membership flips, and no other membership changes |
| Terminal.ToggleTwice | src/components/Terminal.tsx:92-101 | toggling twice restores the set |
| Terminal.RecallOlder | src/components/Terminal.tsx:503-507 | from -1 the cursor goes to the newest entry; otherwise it moves one entry older, stopping at 0; it stays in range |
| Terminal.RecallNewer | src/components/Terminal.tsx:514-521 | the cursor moves one entry newer, or to -1 exactly when it was on the newest entry |
| Terminal.OlderThenNewer | src/components/Terminal.tsx:501-524 | ArrowDown undoes ArrowUp, except at the clamp on the oldest entry |
| Terminal.Session.constructor | src/components/Terminal.tsx:33-48 | the initial state: empty transcript and history, cursor -1, banner shown, not busy |
| Terminal.Session.ExecuteCommand | src/components/Terminal.tsx:104-123 | blank input changes nothing; other input appends one entry and one history item, both holding the trimmed input in its case, and clears the input, hides the banner, resets the cursor to -1 and sets the busy flag; the log invariant holds |
| Terminal.Session.ResumeCommand | src/components/Terminal.tsx:126-493 | `clear` empties the transcript and shows the banner; any other command attaches its output to its own entry; the history is untouched and the terminal is no longer busy |
| Terminal.Session.KeyPress | src/components/Terminal.tsx:496-538 | Enter submits when not busy and closes the popup; ArrowUp and ArrowDown move the cursor by RecallOlder and RecallNewer and load that history item, never changing the history; Tab and printable keys open the popup; Escape closes it; every other key, and Enter while busy, leaves the popup as it was |
| Terminal.Session.Edit | src/components/Terminal.tsx:658-662 | the input follows the field and the popup opens |
| Terminal.Session.AutoCompleteSelect | src/components/Terminal.tsx:550-558 | a name replaces the input; `""` keeps it; the popup closes either way |
| Terminal.Session.ToggleCommandMinimize | src/components/Terminal.tsx:92-101 | the minimised set becomes the toggled set |
| Terminal.Session.VisibleSuggestionsMatchInput | src/components/Terminal.tsx:684-689 | while the popup is visible, it lists exactly the registry entries matching the current input |
| Terminal.Session.AutoCompleteVisible | src/components/Terminal.tsx:687 | the popup is visible exactly when it is open and the input is not all whitespace; the list it then shows is the registry filter |
| Terminal.HistoryRecallExample | src/components/Terminal.tsx:501-524 | after `about` and `skills`, three ArrowUps show skills, about, about, and two ArrowDowns show skills and then the empty input |
| Terminal.ClearExample | src/components/Terminal.tsx:393-397 | `clear` after two commands leaves an empty transcript and the banner, and the history holds all three inputs |
| TypingEffect.StepCounts | src/components/TypingEffect.tsx:35-43 | one tick fires the typing sound once exactly for a non-space character with sound on, the bell once exactly at a positive multiple of 60 with the bell on, and never `onComplete` |
| TypingEffect.StepCues | src/components/TypingEffect.tsx:35-43 | one tick fires at most two cues, each for the revealed position, and the typing sound before the bell when both fire |
| TypingEffect.RevealOneMore | src/components/TypingEffect.tsx:32-43 | revealing one more character extends the shown prefix by that character and the log by that tick's cues |
| TypingEffect.KeystrokeCount | src/components/TypingEffect.tsx:35-38 | over a reveal, the typing sound fires once per revealed non-space character and never otherwise |
| TypingEffect.BellCount | src/components/TypingEffect.tsx:40-43 | over a reveal, the bell fires once per revealed position that is a positive multiple of 60 and never otherwise |
| TypingEffect.RevealNeverCompletes | src/components/TypingEffect.tsx:30-44 | revealing characters never fires `onComplete` |
| TypingEffect.Typewriter.constructor | src/components/TypingEffect.tsx:25-27 | the reveal starts with nothing shown, at index 0, typing |
| TypingEffect.Typewriter.Tick | src/components/TypingEffect.tsx:29-50 | before the end, a tick appends exactly the next character, advances the index by one and fires its cues; at the end it stops typing and fires `onComplete` only if still typing and the callback was given; the shown text is always the prefix up to the index |
| TypingEffect.Typewriter.CompletesOnce | src/components/TypingEffect.tsx:47-64 | `onComplete`, when given, has fired exactly once once typing stops and never before; the whole text is then shown and the cursor is hidden |
| TypingEffect.Typewriter.CursorVisible | src/components/TypingEffect.tsx:64 | the cursor shows only when enabled and while typing, and disappears only when disabled or once the whole text is shown |
| TypingEffect.RunToEnd | src/components/TypingEffect.tsx:29-59 | running the effect to its end shows the whole text and logs the reveal's cues followed by one `onComplete` when that callback was given |
| TypingEffect.EmptyTextCompletes | src/components/TypingEffect.tsx:30-50 | an empty text completes on the first tick with nothing shown |
| LoadingScreen.ProgressAfter | src/components/LoadingScreen.tsx:27-36 | after n ticks progress is min(2n, 100), always even and within 0..100, and `onComplete` has been scheduled max(0, n - 49) times |
| LoadingScreen.NextProgress | src/components/LoadingScreen.tsx:28-35 | one tick adds two points and stops at 100, scheduling `onComplete` exactly when 100 is reached or passed; an even value in 0..100 stays even, in range and does not decrease |
| LoadingScreen.TextAfter | src/components/LoadingScreen.tsx:12-43 | after n ticks the step counter is min(n, 6); the message is the first step's text at first, then the text of step min(n, 6) |
| LoadingScreen.NextText | src/components/LoadingScreen.tsx:38-43 | one tick advances the step counter by one exactly while steps remain, never past the last step, and the message is then the text of the step just passed; otherwise nothing changes |
| LoadingScreen.TextEndsReady | src/components/LoadingScreen.tsx:38-43 | from the sixth tick on, the message rests on "Terminal ready!" |
| LoadingScreen.DotsAfter | src/components/LoadingScreen.tsx:54-57 | after n ticks the ellipsis is n mod 4 dots, at most three |
| LoadingScreen.NextDots | src/components/LoadingScreen.tsx:56 | one tick adds a dot, or empties the ellipsis after three, so the length goes round 0, 1, 2, 3; only dots are ever shown |
| LoadingScreen.DotsCycle | src/components/LoadingScreen.tsx:54-57 | the ellipsis runs through "", ".", "..", "..." with period four |
| LoadingScreen.Loader.constructor | src/components/LoadingScreen.tsx:11-25 | progress 0, the first step's message, no dots, step 0 |
| LoadingScreen.Loader.TickProgress | src/components/LoadingScreen.tsx:27-36 | progress rises by 2 up to 100, and a completion is scheduled on every tick that reaches 100 |
| LoadingScreen.Loader.TickText | src/components/LoadingScreen.tsx:38-43 | while steps remain, the tick shows the current step and moves on; afterwards nothing changes |
| LoadingScreen.Loader.TickDots | src/components/LoadingScreen.tsx:54-57 | the tick adds a dot, or empties the ellipsis after three |

## Left out

- Rendered content: each command's JSX is an abstract `Output` tag. This covers the images, links, animations and portfolio data.
- `date` output: it reads the wall clock, so `DateNow` stands for it.
- Sounds: `src/hooks/useSound.ts` uses Web Audio and floating point, and is not part of this model. The terminal's sound calls and the `soundEnabled` toggle are left out. The typewriter's two sound callbacks are logged as cues.
- Timers: the 500 ms wait in `executeCommand` is the gap between `ExecuteCommand` and `ResumeCommand`. Each interval of the loading screen and each timeout of the typewriter is one tick method. The 200 ms success-sound delay and the 200 ms blur hide are left out.
- The auto-execute buttons: the welcome banner's `help` button and the per-entry buttons of the `help` and `ls` listings (`src/components/Terminal.tsx:140-152`, `439-452`, `592-603`) set the input to a name and call `executeCommand(name)` 100 ms later. A caller expresses this as `ExecuteCommand(name)`, which empties the input the button set. `Edit` is not the same step, because it opens the popup and the buttons do not.
- The `timestamp` of each transcript entry (`src/components/Terminal.tsx:116`) is left out: nothing reads it.
- Picking a suggestion with the mouse (`src/components/AutoComplete.tsx:107`) is not a popup method. It calls `onSelect` with the entry's name, which is `Session.AutoCompleteSelect(name)`.
- Event interleaving: the input's key handler and the popup's document-level key handler both react to the arrows and Enter. They are modelled as separate methods, with no order between them.
- `Date.now()` ids: they are replaced by the `nextId` counter, so the model cannot show two commands sharing an id.
- Focus, scroll and positioning: focus, blur, auto-scroll, `getBoundingClientRect` and the popup position are left out.
- The `showLoading` gate between the splash screen and the terminal is left out.
- Unicode: `trim` uses the whitespace set that JavaScript strips, written out. `toLowerCase` is modelled on ASCII letters only.
- UTF-16: JavaScript strings count UTF-16 code units, and a Dafny `string` counts Unicode scalar values. So the typewriter's index and its bell position (`src/components/TypingEffect.tsx:32-41`) and the one-character key test (`src/components/Terminal.tsx:532`) agree with the code only on text without characters outside the Basic Multilingual Plane. The one typewriter in the terminal shows ASCII text.
- A step's `duration` is kept in `LoadingStep` but nothing reads it, as in the source.
- `TypingEffect.RunToEnd`: the component has no loop. Its effect re-arms a timeout after each state change; the loop stands for that chain of timeouts.
- A change of the typewriter's `text` prop while it runs is left out: the text is a constant of the object.
