/**
 The input bar of arun (`input_bar_t`, arun.c:25-31) and the key handler
 that edits it in place (`handle_key_press`, arun.c:201-251).

 The buffer is the fixed 256-character array of the C struct; `top` is the
 length of the text and `cursor` the insertion index. The pixel size fields
 `width` and `height` only feed the drawing code and are not modelled.
 Every editing method states the whole new buffer, including the stale
 characters past `top`, and the text it leaves (`View`) in terms of
 `KeyHandler.Step`.
 */
module Arun {
  import opened LineEdit
  import opened KeyHandler

  class InputBar {
    var buf: array<char>
    var top: nat
    var cursor: nat

    /** `0 <= cursor <= top <= MAX_INPUT_SIZE`, over a buffer of exactly MAX_INPUT_SIZE characters. */
    ghost predicate Valid()
      reads this, buf
    {
      buf.Length == MaxInputSize &&
      cursor <= top <= buf.Length &&
      Printable(buf[..top])
    }

    /** The text the bar shows (arun.c:183) and hands to the shell on Return. */
    ghost function View(): (b: BarState)
      reads this, buf
      requires Valid()
      ensures Inv(b)
    {
      BarState(buf[..top], cursor)
    }

    /** The zero-initialised static `input_bar` with `top = cursor = 0` (arun.c:45, 265-266). */
    constructor ()
      ensures Valid() && fresh(buf)
      ensures View() == Initial()
      ensures buf[..] == EmptyBuffer()
    {
      buf := new char[MaxInputSize](_ => NUL);
      top := 0;
      cursor := 0;
    }

    /** Right (arun.c:216-219): one place right, only while the cursor is inside the text. */
    method MoveRight() returns (moved: bool)
      requires Valid()
      modifies this`cursor
      ensures Valid()
      ensures moved == (old(cursor) < top)
      ensures cursor == if moved then old(cursor) + 1 else old(cursor)
      ensures top == old(top) && buf[..] == old(buf[..])
    {
      moved := cursor < top;
      if moved {
        cursor := cursor + 1;
      }
    }

    /** Left (arun.c:221-224): one place left, only while the cursor is not at the start. */
    method MoveLeft() returns (moved: bool)
      requires Valid()
      modifies this`cursor
      ensures Valid()
      ensures moved == (old(cursor) > 0)
      ensures cursor == if moved then old(cursor) - 1 else old(cursor)
      ensures top == old(top) && buf[..] == old(buf[..])
    {
      moved := cursor > 0;
      if moved {
        cursor := cursor - 1;
      }
    }

    /**
     BackSpace (arun.c:231-238): with the cursor past the start, the character
     before it goes and the tail `buf[cursor..top]` moves one place left;
     at the start nothing changes. The slot `old(top) - 1` is not cleared.
     */
    method Backspace()
      requires Valid()
      modifies this`top, this`cursor, buf
      ensures Valid()
      ensures old(cursor) > 0 ==>
        buf[..] == BufferAfterBackspace(old(buf[..]), old(cursor), old(top)) &&
        cursor == old(cursor) - 1 && top == old(top) - 1 &&
        buf[..top] == RemoveAt(old(buf[..top]), old(cursor) - 1)
      ensures old(cursor) == 0 ==> cursor == 0 && top == old(top) && buf[..] == old(buf[..])
    {
      if cursor > 0 {
        ghost var raw := buf[..];
        var c, t := cursor, top;
        var i := c;
        while i < t
          invariant 0 < c <= i <= t <= buf.Length == |raw|
          invariant forall j :: 0 <= j < c - 1 ==> buf[j] == raw[j]
          invariant forall j :: c - 1 <= j < i - 1 ==> buf[j] == raw[j + 1]
          invariant forall j :: i - 1 <= j < buf.Length ==> buf[j] == raw[j]
        {
          buf[i - 1] := buf[i];
          i := i + 1;
        }
        ghost var after := BufferAfterBackspace(raw, c, t);
        assert forall j :: 0 <= j < buf.Length ==> buf[..][j] == after[j];
        BufferAfterBackspaceText(raw, c, t);
        RemoveKeepsPrintable(raw[..t], c - 1);
        cursor, top := c - 1, t - 1;
      }
    }

    /**
     A key that produced `ch` (arun.c:246-250): when `ch` is printable and the
     buffer is not full, the tail `buf[cursor..top]` moves one place right,
     from its last character down, `ch` lands at the cursor and the cursor
     follows it; otherwise nothing changes.
     */
    method Insert(ch: char) returns (inserted: bool)
      requires Valid()
      modifies this`top, this`cursor, buf
      ensures Valid()
      ensures inserted == (IsPrint(ch) && old(top) < MaxInputSize)
      ensures inserted ==>
        buf[..] == BufferAfterInsert(old(buf[..]), old(cursor), old(top), ch) &&
        cursor == old(cursor) + 1 && top == old(top) + 1 &&
        buf[..top] == InsertAt(old(buf[..top]), old(cursor), ch)
      ensures !inserted ==> cursor == old(cursor) && top == old(top) && buf[..] == old(buf[..])
    {
      inserted := IsPrint(ch) && top < buf.Length;
      if inserted {
        ghost var raw := buf[..];
        var c, t := cursor, top;
        var i := t;
        while i > c
          invariant c <= i <= t < buf.Length == |raw|
          invariant forall j :: 0 <= j <= i ==> buf[j] == raw[j]
          invariant forall j :: i < j <= t ==> buf[j] == raw[j - 1]
          invariant forall j :: t < j < buf.Length ==> buf[j] == raw[j]
        {
          buf[i] := buf[i - 1];
          i := i - 1;
        }
        buf[c] := ch;
        ghost var after := BufferAfterInsert(raw, c, t, ch);
        assert forall j :: 0 <= j < buf.Length ==> buf[..][j] == after[j];
        BufferAfterInsertText(raw, c, t, ch);
        InsertKeepsPrintable(raw[..t], c, ch);
        cursor, top := c + 1, t + 1;
      }
    }

    /**
     Return (arun.c:209-214 with run_command, arun.c:71-79): the command handed
     to the shell is the text on display, and the bar is emptied.
     */
    method Commit() returns (command: string)
      requires Valid()
      modifies this`top, this`cursor
      ensures Valid()
      ensures command == old(buf[..top])
      ensures View() == Initial() && buf[..] == old(buf[..])
    {
      command := buf[..top];
      top := 0;
      cursor := 0;
    }

    /** `handle_key_press`, its tests in the source's order. */
    method HandleKey(k: Key) returns (outcome: Outcome)
      requires Valid()
      modifies this`top, this`cursor, buf
      ensures Valid()
      ensures Reaction(outcome, View()) == Step(old(View()), k)
    {
      if k.Return? {
        var command := Commit();
        return Run(command);
      }
      if k.Right? {
        var moved := MoveRight();
        if moved {
          return Continue;
        }
      }
      if k.Left? {
        var moved := MoveLeft();
        if moved {
          return Continue;
        }
      }
      // The second Right test (arun.c:226-229) repeats the first and can never succeed.
      if k.BackSpace? {
        Backspace();
        return Continue;
      }
      if k.Escape? {
        return Cancel;
      }
      if k.Char? {
        var _ := Insert(k.c);
      }
      outcome := Continue;
    }

    /** One event of the main loop (arun.c:276-288), drawing left out. */
    method HandleEvent(e: Event) returns (outcome: Outcome)
      requires Valid()
      modifies this`top, this`cursor, buf
      ensures Valid()
      ensures Reaction(outcome, View()) == EventStep(old(View()), e)
    {
      match e
      case Expose =>
        outcome := Continue;
      case KeyPress(k) =>
        outcome := HandleKey(k);
      case FocusOut =>
        outcome := Cancel;
      case Ignored =>
        outcome := Continue;
    }
  }
}
