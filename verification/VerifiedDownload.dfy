/**
 Checksum-verified download (internal/artifacts/store.go). The hash is a parameter: any
 function from bytes to a hex digest. io.Copy, io.LimitedReader and io.TeeReader are part of
 the model.
 */
module VerifiedDownload {
  import opened Wrappers
  import opened Streams
  import opened Text
  import opened Ints

  const COPY_BUFFER := 32 * 1024

  // ---- Comparing digests --------------------------------------------------------

  /** Equal up to the case of letters; lower-case digests are the same only when they are equal. */
  method EqualFoldHex(a: string, b: string) returns (same: bool)
    ensures same <==> SameUpToCase(a, b)
    ensures NoCapitals(a) && NoCapitals(b) ==> (same <==> a == b)
  {
    if NoCapitals(a) && NoCapitals(b) {
      SameWithoutCapitals(a, b);
    }
    if |a| != |b| {
      return false;
    }
    for i := 0 to |a|
      invariant forall k :: 0 <= k < i ==> SameLetter(a[k], b[k])
    {
      LowerIff(a[i], b[i]);
      if Lower(a[i]) != Lower(b[i]) {
        return false;
      }
    }
    same := true;
  }

  // ---- The streaming copy ---------------------------------------------------------

  /** What a LimitedReader of maxBytes+1 may still deliver; the sum wraps at the end of int64. */
  function Allowance(maxBytes: Int64): Option<Int64> {
    if maxBytes <= 0 then None else Some(Wrap(maxBytes + 1))
  }

  /** How many bytes of the object come through. */
  function Visible(size: nat, maxBytes: Int64): nat {
    match Allowance(maxBytes)
    case None => size
    case Some(n) => if n <= 0 then 0 else Min(size, n)
  }

  /** io.Copy through the limit, with everything read also fed to the hash; r and w count the calls made. */
  method Copy(content: seq<Byte>, readScript: seq<ReadMove>, writeScript: seq<WriteMove>, maxBytes: Int64)
    returns (dst: seq<Byte>, hashed: seq<Byte>, ok: bool, r: nat, w: nat)
    ensures ok <==> ReadsWork(readScript, r) && WritesWork(writeScript, w)
    ensures |dst| <= |hashed| <= Visible(|content|, maxBytes)
    ensures dst == content[..|dst|] && hashed == content[..|hashed|]
    ensures ok ==> |dst| == |hashed| == Visible(|content|, maxBytes)
  {
    dst, hashed, r, w := [], [], 0, 0;
    var pos: nat := 0;
    var visible := Visible(|content|, maxBytes);
    var left := Allowance(maxBytes);
    while true
      invariant pos <= visible && dst == hashed == content[..pos]
      invariant left.Some? <==> Allowance(maxBytes).Some?
      invariant left.Some? ==> left.value == Allowance(maxBytes).value - pos
      invariant ReadsWork(readScript, r) && WritesWork(writeScript, w)
      decreases Left(|readScript|, r), |content| - pos
    {
      if left.Some? && left.value <= 0 {
        return dst, hashed, true, r, w;
      }
      var buffer := if left.Some? then Min(COPY_BUFFER, left.value) else COPY_BUFFER;
      var move := ReadMoveAt(readScript, r, |content|);
      var (n, status) := Read(move, |content| - pos, buffer);
      r := r + 1;
      if left.Some? {
        left := Some(left.value - n);
      }
      NextChunk(content, pos, n);
      hashed := hashed + content[pos..pos + n];
      if n > 0 {
        var (taken, failed) := Write(WriteMoveAt(writeScript, w), n);
        w := w + 1;
        NextChunk(content, pos, taken);
        dst := dst + content[pos..pos + taken];
        if failed || taken != n {
          return dst, hashed, false, r, w;
        }
      }
      pos := pos + n;
      if status.End? {
        return dst, hashed, true, r, w;
      }
      if status.Broken? {
        return dst, hashed, false, r, w;
      }
    }
  }

  // ---- Verified download -------------------------------------------------------------

  datatype DownloadError = NoDigest | NotFound | CopyFailed | TooLarge | ChecksumMismatch

  /** A cap of zero or less is none; at the int64 maximum the limit wraps below zero and nothing is read. */
  ghost predicate Fits(size: nat, maxBytes: Int64) {
    0 < maxBytes < MAX_INT64 ==> size <= maxBytes
  }

  ghost function Delivered(stored: seq<Byte>, maxBytes: Int64): seq<Byte> {
    if maxBytes == MAX_INT64 then [] else stored
  }

  /**
   Success means exactly that nothing failed, the object fits the cap (one exactly at the
   cap included), and the digests agree up to case. A caller that sees success holds the
   whole object, and never more than the cap and one byte is written.
   */
  method GetAndVerifyTo(stored: Option<seq<Byte>>, hash: seq<Byte> -> string, expected: string, maxBytes: Int64,
                        readScript: seq<ReadMove>, writeScript: seq<WriteMove>)
    returns (n: nat, err: Option<DownloadError>, dst: seq<Byte>, r: nat, w: nat)
    ensures n == |dst| && (stored.Some? ==> n <= |stored.value| && dst == stored.value[..n])
    ensures expected == "" <==> err == Some(NoDigest)
    ensures expected != "" && stored.None? <==> err == Some(NotFound)
    ensures err.None? ==> dst == Delivered(stored.value, maxBytes)
    ensures 0 < maxBytes < MAX_INT64 ==> n <= maxBytes + 1
    ensures expected != "" && stored.Some? ==>
              var works := ReadsWork(readScript, r) && WritesWork(writeScript, w);
              var fits := Fits(|stored.value|, maxBytes);
              var same := SameUpToCase(hash(Delivered(stored.value, maxBytes)), expected);
              && (err.None? <==> works && fits && same)
              && (err == Some(CopyFailed) <==> !works)
              && (err == Some(TooLarge) <==> works && !fits)
              && (err == Some(ChecksumMismatch) <==> works && fits && !same)
    ensures err.None? && NoCapitals(hash(dst)) && NoCapitals(expected) ==> hash(dst) == expected
  {
    n, err, dst, r, w := 0, None, [], 0, 0;
    if expected == "" {
      err := Some(NoDigest);
      return;
    }
    if stored.None? {
      err := Some(NotFound);
      return;
    }
    var hashed, ok;
    dst, hashed, ok, r, w := Copy(stored.value, readScript, writeScript, maxBytes);
    n := |dst|;
    if !ok {
      err := Some(CopyFailed);
    } else if maxBytes > 0 && n > maxBytes {
      err := Some(TooLarge);
    } else {
      assert hashed == dst == Delivered(stored.value, maxBytes);
      var same := EqualFoldHex(hash(hashed), expected);
      err := if same then None else Some(ChecksumMismatch);
    }
  }

  /** Bytes are handed out only when they hash as expected and, below the int64 maximum, are the whole object. */
  method GetAndVerify(stored: Option<seq<Byte>>, hash: seq<Byte> -> string, expected: string, maxBytes: Int64,
                      readScript: seq<ReadMove>)
    returns (bytes: Option<seq<Byte>>, r: nat)
    ensures bytes.Some? <==>
              && expected != "" && stored.Some? && ReadsWork(readScript, r) && Fits(|stored.value|, maxBytes)
              && SameUpToCase(hash(Delivered(stored.value, maxBytes)), expected)
    ensures bytes.Some? ==> bytes.value == Delivered(stored.value, maxBytes)
    ensures bytes.Some? && NoCapitals(hash(bytes.value)) && NoCapitals(expected) ==> hash(bytes.value) == expected
  {
    var n, err, buffer, w;
    n, err, buffer, r, w := GetAndVerifyTo(stored, hash, expected, maxBytes, readScript, []);
    bytes := if err.None? then Some(buffer) else None;
  }
}
