/**
 The editing primitives of arun's input bar, on values.

 The bar's text is the prefix `buf[..top]` of a fixed 256-character buffer.
 `InsertAt` and `RemoveAt` describe an edit of that text; `BufferAfterInsert`
 and `BufferAfterBackspace` describe what the whole buffer holds after the
 shift that performs the edit, including the stale characters past `top`
 that the C code never clears.
 */
module LineEdit {

  /** MAX_INPUT_SIZE: the capacity of the input bar's buffer. */
  const MaxInputSize: nat := 256

  /** The terminator C strings end with; the buffer starts out all NUL. */
  const NUL: char := '\0'

  /** `isprint` in the C locale (arun.c:246): the ASCII characters 0x20 to 0x7E, so never NUL. */
  function IsPrint(c: char): (printable: bool)
    ensures printable <==> 0x20 <= c as int <= 0x7E
    ensures printable ==> c != NUL
  {
    ' ' <= c <= '~'
  }

  /** The buffer of the fresh bar: the static `input_bar` is zero-initialised (arun.c:45). */
  function EmptyBuffer(): (raw: seq<char>)
    ensures |raw| == MaxInputSize
    ensures forall j :: 0 <= j < |raw| ==> raw[j] == NUL
  {
    seq(MaxInputSize, _ => NUL)
  }

  predicate Printable(s: string) {
    forall j :: 0 <= j < |s| ==> IsPrint(s[j])
  }

  /** The text with `c` placed at index `i` and everything from `i` on moved one place right. */
  function InsertAt(s: string, i: nat, c: char): (r: string)
    requires i <= |s|
    ensures |r| == |s| + 1
    ensures forall j :: 0 <= j < i ==> r[j] == s[j]
    ensures r[i] == c
    ensures forall j :: i < j < |r| ==> r[j] == s[j - 1]
  {
    s[..i] + [c] + s[i..]
  }

  /** The text without the character at index `i`; the rest keeps its order. */
  function RemoveAt(s: string, i: nat): (r: string)
    requires i < |s|
    ensures |r| == |s| - 1
    ensures forall j :: 0 <= j < i ==> r[j] == s[j]
    ensures forall j :: i <= j < |r| ==> r[j] == s[j + 1]
  {
    s[..i] + s[i + 1..]
  }

  /** Removing what was just inserted gives back the original text. */
  lemma {:induction false} RemoveAfterInsert(s: string, i: nat, c: char)
    requires i <= |s|
    ensures RemoveAt(InsertAt(s, i, c), i) == s
  {
    var r := RemoveAt(InsertAt(s, i, c), i);
    assert forall j :: 0 <= j < |s| ==> r[j] == s[j];
  }

  /** Re-inserting a removed character at its old index gives back the original text. */
  lemma {:induction false} InsertAfterRemove(s: string, i: nat)
    requires i < |s|
    ensures InsertAt(RemoveAt(s, i), i, s[i]) == s
  {
    var r := InsertAt(RemoveAt(s, i), i, s[i]);
    assert forall j :: 0 <= j < |s| ==> r[j] == s[j];
  }

  /** Insertion and removal keep a printable text printable. */
  lemma InsertKeepsPrintable(s: string, i: nat, c: char)
    requires i <= |s| && Printable(s) && IsPrint(c)
    ensures Printable(InsertAt(s, i, c))
  {
  }

  lemma RemoveKeepsPrintable(s: string, i: nat)
    requires i < |s| && Printable(s)
    ensures Printable(RemoveAt(s, i))
  {
  }

  /**
   The whole buffer after a printable insertion at `cursor` (arun.c:247-249):
   the text `raw[cursor..top]` moves one place right, `ch` lands at `cursor`,
   and every slot past the new end keeps what it held.
   */
  function BufferAfterInsert(raw: seq<char>, cursor: nat, top: nat, ch: char): (r: seq<char>)
    requires cursor <= top < |raw|
    ensures |r| == |raw|
    ensures forall j :: 0 <= j < cursor ==> r[j] == raw[j]
    ensures r[cursor] == ch
    ensures forall j :: cursor < j <= top ==> r[j] == raw[j - 1]
    ensures forall j :: top < j < |r| ==> r[j] == raw[j]
  {
    raw[..cursor] + [ch] + raw[cursor..top] + raw[top + 1..]
  }

  /**
   The whole buffer after BackSpace with `cursor > 0` (arun.c:233): the text
   `raw[cursor..top]` moves one place left, and the slot `top - 1`, which is
   past the new end, still holds its old character.
   */
  function BufferAfterBackspace(raw: seq<char>, cursor: nat, top: nat): (r: seq<char>)
    requires 0 < cursor <= top <= |raw|
    ensures |r| == |raw|
    ensures forall j :: 0 <= j < cursor - 1 ==> r[j] == raw[j]
    ensures forall j :: cursor - 1 <= j < top - 1 ==> r[j] == raw[j + 1]
    ensures forall j :: top - 1 <= j < |r| ==> r[j] == raw[j]
  {
    raw[..cursor - 1] + raw[cursor..top] + raw[top - 1..]
  }

  /** The text part of the buffer after an insertion is the inserted text. */
  lemma {:induction false} BufferAfterInsertText(raw: seq<char>, cursor: nat, top: nat, ch: char)
    requires cursor <= top < |raw|
    ensures BufferAfterInsert(raw, cursor, top, ch)[..top + 1] == InsertAt(raw[..top], cursor, ch)
  {
    var r := BufferAfterInsert(raw, cursor, top, ch);
    var t := InsertAt(raw[..top], cursor, ch);
    assert forall j :: 0 <= j <= top ==> r[..top + 1][j] == t[j];
  }

  /** The text part of the buffer after BackSpace is the text less the character before the cursor. */
  lemma {:induction false} BufferAfterBackspaceText(raw: seq<char>, cursor: nat, top: nat)
    requires 0 < cursor <= top <= |raw|
    ensures BufferAfterBackspace(raw, cursor, top)[..top - 1] == RemoveAt(raw[..top], cursor - 1)
  {
    var r := BufferAfterBackspace(raw, cursor, top);
    var t := RemoveAt(raw[..top], cursor - 1);
    assert forall j :: 0 <= j < top - 1 ==> r[..top - 1][j] == t[j];
  }
}
