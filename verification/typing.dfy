/** The typewriter reveal: a text is shown one character per timer tick, with
    a keystroke sound per non-space character, a bell at every sixtieth
    position and a completion callback once the whole text is shown. The
    callbacks are recorded as a log of cues. */
module TypingEffect {

  /** A callback the reveal fires: the typing sound for the character at
      `at`, the bell at `at`, or `onComplete`. */
  datatype Cue = Keystroke(at: nat) | Bell(at: nat) | Completed

  /** The bell rings when the revealed position is a positive multiple of 60. */
  predicate BellAt(i: int) {
    i > 0 && i % 60 == 0
  }

  /** The cues of the tick that reveals `text[i]`, in the order they fire. */
  function StepCues(text: string, i: nat, sound: bool, bell: bool): (r: seq<Cue>)
    requires i < |text|
    ensures |r| <= 2
    ensures forall k :: 0 <= k < |r| ==> r[k] == Keystroke(i) || r[k] == Bell(i)
    ensures |r| == 2 ==> r[0] == Keystroke(i) && r[1] == Bell(i)
  {
    (if text[i] != ' ' && sound then [Keystroke(i)] else [])
    + (if BellAt(i) && bell then [Bell(i)] else [])
  }

  /** The cues fired while revealing the first `n` characters. */
  function RevealCues(text: string, n: nat, sound: bool, bell: bool): seq<Cue>
    requires n <= |text|
  {
    if n == 0 then [] else RevealCues(text, n - 1, sound, bell) + StepCues(text, n - 1, sound, bell)
  }

  /** How many times `x` occurs in the log. */
  function Count(cues: seq<Cue>, x: Cue): nat {
    if cues == [] then 0 else (if cues[0] == x then 1 else 0) + Count(cues[1..], x)
  }

  /** Counting splits over concatenation. */
  lemma {:induction false} CountAppend(a: seq<Cue>, b: seq<Cue>, x: Cue)
    ensures Count(a + b, x) == Count(a, x) + Count(b, x)
  {
    if a != [] {
      assert (a + b)[1..] == a[1..] + b;
      CountAppend(a[1..], b, x);
    } else {
      assert a + b == b;
    }
  }

  /** How often one tick fires each cue. */
  lemma StepCounts(text: string, j: nat, sound: bool, bell: bool, i: nat)
    requires j < |text|
    ensures Count(StepCues(text, j, sound, bell), Keystroke(i))
         == if sound && i == j && text[j] != ' ' then 1 else 0
    ensures Count(StepCues(text, j, sound, bell), Bell(i))
         == if bell && i == j && BellAt(j) then 1 else 0
    ensures Count(StepCues(text, j, sound, bell), Completed) == 0
  {
    var a := if text[j] != ' ' && sound then [Keystroke(j)] else [];
    var b := if BellAt(j) && bell then [Bell(j)] else [];
    CountAppend(a, b, Keystroke(i));
    CountAppend(a, b, Bell(i));
    CountAppend(a, b, Completed);
  }

  /** The typing sound fires exactly once for each revealed non-space character,
      and never for a space or a character not yet revealed. */
  lemma {:induction false} KeystrokeCount(text: string, n: nat, sound: bool, bell: bool, i: nat)
    requires n <= |text|
    ensures Count(RevealCues(text, n, sound, bell), Keystroke(i))
         == if sound && i < n && text[i] != ' ' then 1 else 0
  {
    if n > 0 {
      CountAppend(RevealCues(text, n - 1, sound, bell), StepCues(text, n - 1, sound, bell), Keystroke(i));
      KeystrokeCount(text, n - 1, sound, bell, i);
      StepCounts(text, n - 1, sound, bell, i);
      if i == n - 1 {
        assert text[i] == text[n - 1];
      }
    }
  }

  /** The bell fires exactly once for each revealed position that is a positive
      multiple of 60. */
  lemma {:induction false} BellCount(text: string, n: nat, sound: bool, bell: bool, i: nat)
    requires n <= |text|
    ensures Count(RevealCues(text, n, sound, bell), Bell(i))
         == if bell && i < n && BellAt(i) then 1 else 0
  {
    if n > 0 {
      CountAppend(RevealCues(text, n - 1, sound, bell), StepCues(text, n - 1, sound, bell), Bell(i));
      BellCount(text, n - 1, sound, bell, i);
      StepCounts(text, n - 1, sound, bell, i);
      if i == n - 1 {
        assert BellAt(i) == BellAt(n - 1);
      }
    }
  }

  /** Revealing characters never fires the completion callback. */
  lemma {:induction false} RevealNeverCompletes(text: string, n: nat, sound: bool, bell: bool)
    requires n <= |text|
    ensures Count(RevealCues(text, n, sound, bell), Completed) == 0
  {
    if n > 0 {
      CountAppend(RevealCues(text, n - 1, sound, bell), StepCues(text, n - 1, sound, bell), Completed);
      RevealNeverCompletes(text, n - 1, sound, bell);
      StepCounts(text, n - 1, sound, bell, 0);
    }
  }

  /** Revealing one more character extends both the shown prefix and the log. */
  lemma RevealOneMore(text: string, i: nat, sound: bool, bell: bool)
    requires i < |text|
    ensures text[..i + 1] == text[..i] + [text[i]]
    ensures RevealCues(text, i + 1, sound, bell) == RevealCues(text, i, sound, bell) + StepCues(text, i, sound, bell)
  {
  }

  class Typewriter {
    const text: string
    const showCursor: bool
    /** Whether a `playSound` callback was given. */
    const withSound: bool
    /** Whether a `playBellSound` callback was given. */
    const withBell: bool
    /** Whether an `onComplete` callback was given. */
    const withComplete: bool
    var displayed: string
    var index: nat
    var typing: bool
    var cues: seq<Cue>

    /** The shown text is the prefix up to the index; typing stops only at the
        end of the text; the log holds the reveal's cues, then `Completed`
        once typing has stopped if that callback was given. */
    ghost predicate Valid()
      reads this
    {
      && index <= |text|
      && displayed == text[..index]
      && (!typing ==> index == |text|)
      && cues == RevealCues(text, index, withSound, withBell) + (if !typing && withComplete then [Completed] else [])
    }

    constructor (text: string, showCursor: bool, withSound: bool, withBell: bool, withComplete: bool)
      ensures Valid()
      ensures this.text == text && this.showCursor == showCursor
      ensures this.withSound == withSound && this.withBell == withBell && this.withComplete == withComplete
      ensures displayed == "" && index == 0 && typing && cues == []
    {
      this.text := text;
      this.showCursor := showCursor;
      this.withSound := withSound;
      this.withBell := withBell;
      this.withComplete := withComplete;
      displayed := "";
      index := 0;
      typing := true;
      cues := [];
    }

    /** One run of the effect: reveal the next character with its sounds, or,
        at the end of the text, stop typing and complete, at most once. */
    method Tick()
      requires Valid()
      modifies this`displayed, this`index, this`typing, this`cues
      ensures Valid()
      ensures old(index) < |text| ==>
                && displayed == old(displayed) + [text[old(index)]]
                && index == old(index) + 1 && typing == old(typing)
                && cues == old(cues) + StepCues(text, old(index), withSound, withBell)
      ensures old(index) == |text| ==>
                && displayed == old(displayed) && index == old(index) && !typing
                && cues == old(cues) + (if old(typing) && withComplete then [Completed] else [])
    {
      if index < |text| {
        var i := index;
        var c := text[i];
        ghost var before := cues;
        displayed := displayed + [c];
        index := index + 1;
        if c != ' ' && withSound {
          cues := cues + [Keystroke(i)];
        }
        if i > 0 && i % 60 == 0 && withBell {
          cues := cues + [Bell(i)];
        }
        assert typing && before == RevealCues(text, i, withSound, withBell);
        assert cues == before + StepCues(text, i, withSound, withBell);
        RevealOneMore(text, i, withSound, withBell);
        assert cues == RevealCues(text, index, withSound, withBell) + [];
      } else if typing {
        typing := false;
        if withComplete {
          cues := cues + [Completed];
        }
      }
    }

    /** The blinking cursor is drawn only when enabled and while typing: it
        goes away only when disabled or once the whole text is shown. */
    predicate CursorVisible(): (b: bool)
      requires Valid()
      reads this
      ensures b ==> showCursor && typing
      ensures !b ==> !showCursor || displayed == text
    {
      showCursor && typing
    }

    /** `onComplete`, when given, has fired exactly once when typing has
        stopped, and not before; the cursor is then gone. */
    lemma CompletesOnce()
      requires Valid()
      ensures Count(cues, Completed) == if !typing && withComplete then 1 else 0
      ensures !typing ==> displayed == text && !CursorVisible()
    {
      RevealNeverCompletes(text, index, withSound, withBell);
      var shown := RevealCues(text, index, withSound, withBell);
      var tail: seq<Cue> := (if !typing && withComplete then [Completed] else []);
      CountAppend(shown, tail, Completed);
      assert Count(tail, Completed) == (if !typing && withComplete then 1 else 0);
    }
  }

  /** The effect's timer chain, ticking until the text is complete. */
  method RunToEnd(w: Typewriter)
    requires w.Valid()
    modifies w
    ensures w.Valid()
    ensures w.displayed == w.text && !w.typing
    ensures w.cues == RevealCues(w.text, |w.text|, w.withSound, w.withBell) + (if w.withComplete then [Completed] else [])
  {
    while w.typing
      invariant w.Valid()
      decreases |w.text| - w.index + (if w.typing then 1 else 0)
    {
      w.Tick();
    }
  }

  /** An empty text completes on the first tick with nothing shown. */
  method EmptyTextCompletes() returns (shown: string, log: seq<Cue>)
    ensures shown == "" && log == [Completed]
  {
    var w := new Typewriter("", true, true, true, true);
    w.Tick();
    shown, log := w.displayed, w.cues;
  }
}
