/**
 Readers and writers as the artifact code meets them. A reader holds some content and a
 script that says how each Read call behaves; a writer has a script for its Write calls.
 Past the end of its script a reader gives all it can and a writer takes everything.
 */
module Streams {
  type Byte = b: int | 0 <= b < 256

  datatype ReadMove =
    | Give(n: nat, eager: bool) // up to n bytes; eager readers report the end together with the last bytes
    | BreakAfter(n: nat)        // up to n bytes together with an error

  datatype ReadStatus = More | End | Broken

  datatype WriteMove =
    | Whole
    | Short(n: nat)    // takes at most n bytes and not all of them, without an error
    | FailAfter(n: nat) // takes at most n bytes and reports an error

  function Min(a: nat, b: nat): (m: nat) {
    if a <= b then a else b
  }

  function ReadMoveAt(readScript: seq<ReadMove>, r: nat, all: nat): ReadMove {
    if r < |readScript| then readScript[r] else Give(all, false)
  }

  function WriteMoveAt(writeScript: seq<WriteMove>, w: nat): WriteMove {
    if w < |writeScript| then writeScript[w] else Whole
  }

  /** One Read into a buffer of the given size with rest bytes left. */
  function Read(move: ReadMove, rest: nat, buffer: nat): (result: (nat, ReadStatus))
    ensures result.0 <= rest && result.0 <= buffer
    ensures result.1.End? ==> result.0 == rest
    ensures result.1.Broken? <==> move.BreakAfter?
  {
    var k := Min(move.n, Min(rest, buffer));
    if move.BreakAfter? then (k, Broken)
    else if k == rest && (rest == 0 || move.eager) then (k, End)
    else (k, More)
  }

  /** How much of an n-byte chunk a Write takes, and whether it reports an error. */
  function Write(move: WriteMove, n: nat): (result: (nat, bool))
    requires n > 0
    ensures result.0 <= n
    ensures (result.0 == n && !result.1) <==> move.Whole?
  {
    match move
    case Whole => (n, false)
    case Short(k) => (Min(k, n - 1), false)
    case FailAfter(k) => (Min(k, n), true)
  }

  ghost predicate ReadsWork(readScript: seq<ReadMove>, r: nat) {
    forall i :: 0 <= i < r && i < |readScript| ==> readScript[i].Give?
  }

  ghost predicate WritesWork(writeScript: seq<WriteMove>, w: nat) {
    forall i :: 0 <= i < w && i < |writeScript| ==> writeScript[i].Whole?
  }

  /** What is left of a script of the given length. */
  function Left(script: nat, done: nat): nat {
    if done < script then script - done else 0
  }

  lemma NextChunk(content: seq<Byte>, pos: nat, n: nat)
    requires pos + n <= |content|
    ensures content[..pos] + content[pos..pos + n] == content[..pos + n]
  {
  }
}
