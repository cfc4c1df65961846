/**
 What two library calls in `handle_key_press` and `run_command` do with the
 raw 256-character buffer as the C code is written, set beside the edits
 the rest of the model performs.

 - `execl("/bin/sh", "sh", "-c", input_bar.buf, NULL)` (arun.c:74) reads the
   buffer as a C string, up to its first NUL, not up to `top`.
 - `memccpy(dst, src, '\0', n)` (arun.c:233, 247) is called on overlapping
   regions, which C leaves undefined; `MemccpyForward` is the front-to-back
   byte copy a straightforward implementation performs.
 */
module CSemantics {
  import opened LineEdit

  /** The command string `sh -c` receives: the buffer up to its first NUL, or all of it. */
  function ExecArgument(raw: seq<char>): (arg: string)
    ensures |arg| <= |raw| && arg == raw[..|arg|]
    ensures forall j :: 0 <= j < |arg| ==> arg[j] != NUL
    ensures |arg| < |raw| ==> raw[|arg|] == NUL
  {
    if raw == [] || raw[0] == NUL then [] else [raw[0]] + ExecArgument(raw[1..])
  }

  /** A buffer whose text is NUL-terminated at `top` hands the shell exactly its text. */
  lemma ExecArgumentOfTerminated(raw: seq<char>, top: nat)
    requires top < |raw| && raw[top] == NUL && Printable(raw[..top])
    ensures ExecArgument(raw) == raw[..top]
  {
  }

  /**
   BackSpace at the end of the text, as written: the buffer is not changed
   (memccpy copies nothing) and only `top` drops, so the shell still
   receives the deleted character, which the text no longer holds.
   */
  lemma BackspaceAtEndStillRunsDeleted(raw: seq<char>, top: nat)
    requires 0 < top < |raw| && raw[top] == NUL && Printable(raw[..top])
    ensures var after := BufferAfterBackspace(raw, top, top);
      after[..top - 1] == raw[..top - 1] &&
      ExecArgument(after) == raw[..top] &&
      ExecArgument(after) != after[..top - 1]
  {
    assert BufferAfterBackspace(raw, top, top) == raw;
    ExecArgumentOfTerminated(raw, top);
  }

  /** The buffer after typing 'a' and then 'b' into the fresh bar. */
  function TypedAB(): (raw: seq<char>)
    ensures |raw| == MaxInputSize
    ensures raw[..2] == "ab" && raw[2] == NUL
  {
    var raw := BufferAfterInsert(BufferAfterInsert(EmptyBuffer(), 0, 0, 'a'), 1, 1, 'b');
    assert raw[..2] == [raw[0], raw[1]];
    raw
  }

  /** Type "ab" into the fresh bar and press BackSpace: the text is "a", the shell gets "ab". */
  lemma StaleCharacterWitness()
    ensures var after := BufferAfterBackspace(TypedAB(), 2, 2);
      after[..1] == "a" && ExecArgument(after) == "ab"
  {
    var typed := TypedAB();
    assert typed[..1] == "a";
    BackspaceAtEndStillRunsDeleted(typed, 2);
  }

  /** memccpy copying one byte at a time from the front, stopping after a copied NUL. */
  function MemccpyForward(raw: seq<char>, dst: nat, src: nat, n: nat): (r: seq<char>)
    requires dst + n <= |raw| && src + n <= |raw|
    ensures |r| == |raw|
    ensures forall j :: 0 <= j < dst ==> r[j] == raw[j]
    ensures forall j :: dst + n <= j < |raw| ==> r[j] == raw[j]
    decreases n
  {
    if n == 0 then raw
    else
      var moved := raw[dst := raw[src]];
      if raw[src] == NUL then moved else MemccpyForward(moved, dst + 1, src + 1, n - 1)
  }

  /**
   Copying to one place lower, as BackSpace does (arun.c:233), the forward
   copy is the intended left shift whenever the copied text has no NUL.
   */
  lemma {:induction false} MemccpyShiftLeft(raw: seq<char>, d: nat, n: nat)
    requires d + 1 + n <= |raw|
    requires forall j :: d + 1 <= j < d + 1 + n ==> raw[j] != NUL
    ensures MemccpyForward(raw, d, d + 1, n) == raw[..d] + raw[d + 1..d + 1 + n] + raw[d + n..]
    decreases n
  {
    if n == 0 {
      assert raw[..d] + raw[d + 1..d + 1] + raw[d..] == raw;
    } else {
      var moved := raw[d := raw[d + 1]];
      MemccpyShiftLeft(moved, d + 1, n - 1);
      assert moved[..d + 1] == raw[..d] + [raw[d + 1]];
      assert moved[d + 2..d + 1 + n] == raw[d + 2..d + 1 + n];
      assert moved[d + n..] == raw[d + n..];
      assert raw[d + 1..d + 1 + n] == [raw[d + 1]] + raw[d + 2..d + 1 + n];
    }
  }

  /** So BackSpace as written agrees with `BufferAfterBackspace`, the edit the model performs. */
  lemma BackspaceAsWrittenAgrees(raw: seq<char>, cursor: nat, top: nat)
    requires 0 < cursor <= top <= |raw| && Printable(raw[..top])
    ensures MemccpyForward(raw, cursor - 1, cursor, top - cursor) == BufferAfterBackspace(raw, cursor, top)
  {
    assert forall j :: cursor <= j < top ==> raw[j] == raw[..top][j];
    MemccpyShiftLeft(raw, cursor - 1, top - cursor);
  }

  /** Insertion as written (arun.c:247-248): memccpy one place up, then `ch` at the cursor. */
  function AsWrittenInsert(raw: seq<char>, cursor: nat, top: nat, ch: char): (r: seq<char>)
    requires cursor <= top < |raw|
    ensures |r| == |raw| && r[cursor] == ch
  {
    MemccpyForward(raw, cursor + 1, cursor, top - cursor)[cursor := ch]
  }

  /**
   Copying to one place higher, the forward copy reads back what it has just
   written: every slot of the destination gets the first source character.
   */
  lemma {:induction false} MemccpyShiftRightSmears(raw: seq<char>, d: nat, n: nat)
    requires d + 1 + n <= |raw| && raw[d] != NUL
    ensures var r := MemccpyForward(raw, d + 1, d, n); forall j :: d < j <= d + n ==> r[j] == raw[d]
    decreases n
  {
    if n > 0 {
      var moved := raw[d + 1 := raw[d]];
      assert MemccpyForward(raw, d + 1, d, n) == MemccpyForward(moved, d + 2, d + 1, n - 1);
      MemccpyShiftRightSmears(moved, d + 1, n - 1);
    }
  }

  /**
   With "ab" typed into the fresh bar and the cursor moved to the start,
   typing 'x' as written gives "xaa"; the intended insertion gives "xab".
   */
  lemma InsertSmearWitness()
    ensures AsWrittenInsert(TypedAB(), 0, 2, 'x')[..3] == "xaa"
    ensures BufferAfterInsert(TypedAB(), 0, 2, 'x')[..3] == "xab"
  {
    var typed := TypedAB();
    assert typed[0] == 'a' && typed[1] == 'b' by { assert typed[..2] == "ab"; }
    MemccpyShiftRightSmears(typed, 0, 2);
    var asWritten := AsWrittenInsert(typed, 0, 2, 'x');
    assert asWritten[..3] == [asWritten[0], asWritten[1], asWritten[2]];
    var intended := BufferAfterInsert(typed, 0, 2, 'x');
    assert intended[..3] == [intended[0], intended[1], intended[2]];
  }
}
