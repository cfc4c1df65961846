/**
 What one key press does to the input bar, as a function on its visible state.

 `Step` is the specification that `Arun.InputBar.HandleKey` is proved against;
 `Session` folds it over a sequence of key presses, stopping where the
 launcher would exit.
 */
module KeyHandler {
  import opened LineEdit

  /**
   The keys `handle_key_press` tells apart once XLookupString has translated
   the event: the five keysyms it tests, a key that produced a character,
   and any key that produced none (whose character the C code reads from an
   unwritten buffer; it is modelled as producing nothing).
   */
  datatype Key = Return | Right | Left | BackSpace | Escape | Char(c: char) | Other

  /**
   The events the main loop receives (arun.c:276-288). `Ignored` stands for
   those its `switch` has no case for, such as focus-in and error events.
   */
  datatype Event = Expose | KeyPress(key: Key) | FocusOut | Ignored

  /**
   What the launcher does after an event: keep reading events, hand a
   command to `/bin/sh -c` and exit with status 0, or exit with status 1
   having run nothing.
   */
  datatype Outcome = Continue | Run(command: string) | Cancel {
    /** `exit(0)` after handing off a command (arun.c:78), `exit(1)` on cancel (arun.c:242, 286). */
    function ExitStatus(): (status: int)
      requires !Continue?
      ensures status == 0 || status == 1
      ensures status == 0 <==> Run?
    {
      if Run? then 0 else 1
    }
  }

  /** The visible state of the input bar: the text `buf[..top]` and the cursor. */
  datatype BarState = BarState(text: string, cursor: nat)

  datatype Reaction = Reaction(outcome: Outcome, after: BarState)

  /** The invariant `0 <= cursor <= top <= MAX_INPUT_SIZE`; the text holds only what insertion lets in. */
  predicate Inv(b: BarState) {
    b.cursor <= |b.text| <= MaxInputSize && Printable(b.text)
  }

  /** `input_bar = {0}` with `top = cursor = 0` (arun.c:45, 265-266): empty, and the invariant holds. */
  function Initial(): (b: BarState)
    ensures Inv(b) && |b.text| == 0
  {
    BarState([], 0)
  }

  /**
   One call of `handle_key_press` (arun.c:209-250). A key whose character is
   not printable or does not fit falls through every test and changes
   nothing. A Left or Right that cannot move, and `Other`, fall through to
   the insertion test too, where the C code reads a character XLookupString
   never wrote; that they change nothing is this model's choice, not a
   guarantee of the C code.
   */
  function Step(b: BarState, k: Key): (r: Reaction)
    requires Inv(b)
    ensures Inv(r.after)
    ensures r.outcome.Run? ==> r.outcome.command == b.text && r.after == Initial()
    ensures r.outcome.Cancel? ==> r.after == b
  {
    match k
    case Return => Reaction(Run(b.text), Initial())
    case Right =>
      if b.cursor < |b.text| then Reaction(Continue, b.(cursor := b.cursor + 1))
      else Reaction(Continue, b)
    case Left =>
      if b.cursor > 0 then Reaction(Continue, b.(cursor := b.cursor - 1))
      else Reaction(Continue, b)
    case BackSpace =>
      if b.cursor > 0 then
        RemoveKeepsPrintable(b.text, b.cursor - 1);
        Reaction(Continue, BarState(RemoveAt(b.text, b.cursor - 1), b.cursor - 1))
      else Reaction(Continue, b)
    case Escape => Reaction(Cancel, b)
    case Char(c) =>
      if IsPrint(c) && |b.text| < MaxInputSize then
        InsertKeepsPrintable(b.text, b.cursor, c);
        Reaction(Continue, BarState(InsertAt(b.text, b.cursor, c), b.cursor + 1))
      else Reaction(Continue, b)
    case Other => Reaction(Continue, b)
  }

  /** One turn of the main loop, drawing left out. */
  function EventStep(b: BarState, e: Event): (r: Reaction)
    requires Inv(b)
    ensures Inv(r.after)
  {
    match e
    case Expose => Reaction(Continue, b)
    case KeyPress(k) => Step(b, k)
    case FocusOut => Reaction(Cancel, b)
    case Ignored => Reaction(Continue, b)
  }

  /** The key presses in order until the launcher exits or the keys run out. */
  function Session(b: BarState, keys: seq<Key>): (r: Reaction)
    requires Inv(b)
    ensures Inv(r.after)
    ensures r.outcome.Run? ==> r.after == Initial()
    decreases |keys|
  {
    if keys == [] then Reaction(Continue, b)
    else
      var first := Step(b, keys[0]);
      if first.outcome.Continue? then Session(first.after, keys[1..]) else first
  }

  /** The key presses that type the characters of `s`. */
  function Typed(s: string): (keys: seq<Key>)
    ensures |keys| == |s|
    ensures forall j :: 0 <= j < |s| ==> keys[j] == Char(s[j])
  {
    seq(|s|, j requires 0 <= j < |s| => Char(s[j]))
  }

  /** Left and Right move the cursor by one within the text and never touch the text (arun.c:216-224). */
  lemma CursorKeysOnlyMoveCursor(b: BarState, k: Key)
    requires Inv(b) && (k == Left || k == Right)
    ensures Step(b, k).outcome == Continue
    ensures Step(b, k).after.text == b.text
    ensures k == Left ==> Step(b, k).after.cursor == if b.cursor > 0 then b.cursor - 1 else 0
    ensures k == Right ==> Step(b, k).after.cursor == if b.cursor < |b.text| then b.cursor + 1 else b.cursor
  {
  }

  /** A printable insertion followed by BackSpace restores text and cursor (arun.c:233-235, 247-249). */
  lemma {:induction false} InsertThenBackspace(b: BarState, c: char)
    requires Inv(b) && IsPrint(c) && |b.text| < MaxInputSize
    ensures Step(Step(b, Char(c)).after, BackSpace) == Reaction(Continue, b)
  {
    RemoveAfterInsert(b.text, b.cursor, c);
  }

  /** BackSpace followed by typing the deleted character restores text and cursor. */
  lemma {:induction false} BackspaceThenRetype(b: BarState)
    requires Inv(b) && b.cursor > 0
    ensures Step(Step(b, BackSpace).after, Char(b.text[b.cursor - 1])) == Reaction(Continue, b)
  {
    InsertAfterRemove(b.text, b.cursor - 1);
  }

  /** Escape and losing the input focus both exit with status 1, run nothing and leave the bar as it was. */
  lemma EscapeAndFocusOutCancel(b: BarState)
    requires Inv(b)
    ensures EventStep(b, KeyPress(Escape)) == EventStep(b, FocusOut) == Reaction(Cancel, b)
    ensures EventStep(b, FocusOut).outcome.ExitStatus() == 1
  {
  }

  /** Running two batches of keys is running the second from where the first left off, unless the first exited. */
  lemma {:induction false} SessionAppend(b: BarState, first: seq<Key>, rest: seq<Key>)
    requires Inv(b)
    ensures Session(b, first + rest) ==
      var r := Session(b, first);
      if r.outcome.Continue? then Session(r.after, rest) else r
    decreases |first|
  {
    if first == [] {
      assert first + rest == rest;
    } else {
      assert (first + rest)[0] == first[0];
      assert (first + rest)[1..] == first[1..] + rest;
      var s := Step(b, first[0]);
      if s.outcome.Continue? {
        SessionAppend(s.after, first[1..], rest);
      }
    }
  }

  /** Typing printable characters with the cursor at the end appends them and keeps the cursor at the end. */
  lemma {:induction false} TypingAppends(t: string, s: string)
    requires Inv(BarState(t, |t|)) && Printable(s) && |t| + |s| <= MaxInputSize
    ensures Session(BarState(t, |t|), Typed(s)) == Reaction(Continue, BarState(t + s, |t + s|))
    decreases |s|
  {
    if s == [] {
      assert t + s == t;
    } else {
      var t' := t + [s[0]];
      assert InsertAt(t, |t|, s[0]) == t';
      assert Step(BarState(t, |t|), Char(s[0])) == Reaction(Continue, BarState(t', |t'|));
      assert Typed(s)[1..] == Typed(s[1..]);
      assert t' + s[1..] == t + s;
      TypingAppends(t', s[1..]);
    }
  }

  /** Typing a printable command that fits and pressing Return runs exactly that command and empties the bar. */
  lemma {:induction false} TypeThenCommit(s: string)
    requires Printable(s) && |s| <= MaxInputSize
    ensures Session(Initial(), Typed(s) + [Return]) == Reaction(Run(s), Initial())
  {
    SessionAppend(Initial(), Typed(s), [Return]);
    TypingAppends([], s);
    assert [] + s == s;
  }
}
