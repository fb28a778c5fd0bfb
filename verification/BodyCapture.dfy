/**
  Response bodies for the log: a stream that tees a bounded prefix of what it forwards,
  and the cut that keeps a truncated UTF-8 body free of broken characters.
 */
module BodyCapture {
  import opened Arithmetic

  type Bytes = seq<bv8>

  // ----- well-formed UTF-8: section 4 of RFC 3629 -----

  predicate IsTail(b: bv8) { 0x80 <= b <= 0xBF }

  /** The length of the character a byte string starts with, or 0 when it starts with none. */
  function CharLength(s: Bytes): (n: nat)
    ensures n <= 4 && n <= |s|
  {
    if |s| >= 1 && s[0] <= 0x7F then 1
    else if |s| >= 2 && 0xC2 <= s[0] <= 0xDF && IsTail(s[1]) then 2
    else if |s| >= 3 && IsTail(s[2]) &&
            ( (s[0] == 0xE0 && 0xA0 <= s[1] <= 0xBF)
            || (0xE1 <= s[0] <= 0xEC && IsTail(s[1]))
            || (s[0] == 0xED && 0x80 <= s[1] <= 0x9F)
            || (0xEE <= s[0] <= 0xEF && IsTail(s[1]))) then 3
    else if |s| >= 4 && IsTail(s[2]) && IsTail(s[3]) &&
            ( (s[0] == 0xF0 && 0x90 <= s[1] <= 0xBF)
            || (0xF1 <= s[0] <= 0xF3 && IsTail(s[1]))
            || (s[0] == 0xF4 && 0x80 <= s[1] <= 0x8F)) then 4
    else 0
  }

  predicate ValidUtf8(s: Bytes)
    decreases |s|
  {
    s == [] || (CharLength(s) > 0 && ValidUtf8(s[CharLength(s)..]))
  }

  /** Bytes taken by the whole characters that fit in the first n bytes. */
  function WholeChars(s: Bytes, n: nat): (w: nat)
    ensures w <= n && w <= |s|
    decreases |s|
  {
    var c := CharLength(s);
    if c == 0 || c > n then 0 else c + WholeChars(s[c..], n - c)
  }

  lemma CharLengthOfPrefix(s: Bytes, m: nat)
    requires m <= |s|
    ensures CharLength(s[..m]) == if CharLength(s) <= m then CharLength(s) else 0
  {
  }

  /** `WholeChars` is the longest well-formed prefix within n bytes; at most 3 bytes are lost. */
  lemma {:induction false} WholeCharsIsLongest(s: Bytes, n: nat)
    requires ValidUtf8(s) && n <= |s|
    ensures ValidUtf8(s[..WholeChars(s, n)])
    ensures forall m :: 0 <= m <= n && ValidUtf8(s[..m]) ==> m <= WholeChars(s, n)
    ensures n - WholeChars(s, n) <= 3
    decreases |s|
  {
    var c, w := CharLength(s), WholeChars(s, n);
    if c == 0 || c > n {
      forall m | 0 <= m <= n && ValidUtf8(s[..m])
        ensures m == 0
      {
        CharLengthOfPrefix(s, m);
      }
    } else {
      WholeCharsIsLongest(s[c..], n - c);
      CharLengthOfPrefix(s, w);
      SuffixOfPrefix(s, w, c);
      forall m | 0 <= m <= n && ValidUtf8(s[..m])
        ensures m <= w
      {
        CharLengthOfPrefix(s, m);
        if m > 0 {
          SuffixOfPrefix(s, m, c);
        }
      }
    }
  }

  lemma SuffixOfPrefix<T>(s: seq<T>, n: nat, c: nat)
    requires c <= n <= |s|
    ensures s[..n][c..] == s[c..][..n - c]
  {
  }

  // ----- the cut -----

  /** The number of bytes a leading byte announces, as the code reads it. */
  function Expected(b: bv8): nat {
    if b >= 0xF0 then 4 else if b >= 0xE0 then 3 else if b >= 0xC0 then 2 else 1
  }

  /** The backward scan from the i-th last byte of p. */
  function ScanFrom(p: Bytes, i: nat): (r: nat)
    requires i >= 1
    ensures r <= |p|
    decreases 5 - i
  {
    if i > Min(4, |p|) then (if |p| > 0 then |p| - 1 else 0)
    else if (p[|p| - i] & 0xC0) == 0x80 then ScanFrom(p, i + 1)
    else if i < Expected(p[|p| - i]) then |p| - i
    else |p|
  }

  function Trimmed(p: Bytes): (r: nat)
    ensures r <= |p|
  {
    if |p| == 0 then 0 else ScanFrom(p, 1)
  }

  method TrimIncompleteUtf8(buffer: array<bv8>, length: nat) returns (r: nat)
    requires length <= buffer.Length
    ensures r == Trimmed(buffer[..length])
  {
    if length == 0 {
      return 0;
    }
    ghost var p := buffer[..length];
    var i := 1;
    while i <= Min(4, length)
      invariant 1 <= i <= Min(4, length) + 1
      invariant ScanFrom(p, 1) == ScanFrom(p, i)
    {
      var b := buffer[length - i];
      if (b & 0xC0) != 0x80 {
        if i < Expected(b) {
          return length - i;
        }
        return length;
      }
      i := i + 1;
    }
    r := length - 1;
  }

  lemma TailMask(b: bv8)
    ensures (b & 0xC0) == 0x80 <==> IsTail(b)
  {
  }

  /** The scan from i meets a leading byte. */
  ghost predicate Finds(p: Bytes, i: nat)
    requires i >= 1
    decreases 5 - i
  {
    i <= Min(4, |p|) && (!IsTail(p[|p| - i]) || Finds(p, i + 1))
  }

  /** A scan that ends within a suffix does not look further. */
  lemma {:induction false} ScanOfSuffix(p: Bytes, k: nat, i: nat)
    requires i >= 1 && k <= |p| && Finds(p[k..], i)
    ensures Finds(p, i) && ScanFrom(p, i) == k + ScanFrom(p[k..], i)
    decreases 5 - i
  {
    var q := p[k..];
    assert p[|p| - i] == q[|q| - i];
    TailMask(p[|p| - i]);
    if IsTail(p[|p| - i]) {
      ScanOfSuffix(p, k, i + 1);
    }
  }

  /** Inside one character the scan runs back to its leading byte. */
  lemma {:induction false} ScanInsideChar(p: Bytes, i: nat)
    requires 1 <= i <= |p| <= 4
    requires !IsTail(p[0]) && forall j :: 0 < j < |p| ==> IsTail(p[j])
    ensures Finds(p, i)
    ensures ScanFrom(p, i) == if |p| < Expected(p[0]) then 0 else |p|
    decreases 5 - i
  {
    TailMask(p[|p| - i]);
    if i < |p| {
      ScanInsideChar(p, i + 1);
    }
  }

  lemma CharShape(s: Bytes)
    requires CharLength(s) > 0
    ensures !IsTail(s[0]) && Expected(s[0]) == CharLength(s)
    ensures forall j :: 0 < j < CharLength(s) ==> IsTail(s[j])
  {
  }

  lemma {:induction false} TrimmedScan(s: Bytes, n: nat)
    requires ValidUtf8(s) && 1 <= n <= |s|
    ensures Finds(s[..n], 1) && ScanFrom(s[..n], 1) == WholeChars(s, n)
    decreases |s|
  {
    var c := CharLength(s);
    CharShape(s);
    if n <= c {
      ScanInFirstChar(s, n);
    } else {
      TrimmedScan(s[c..], n - c);
      SuffixOfPrefix(s, n, c);
      ScanOfSuffix(s[..n], c, 1);
      assert WholeChars(s, n) == c + WholeChars(s[c..], n - c);
    }
  }

  lemma ScanInFirstChar(s: Bytes, n: nat)
    requires ValidUtf8(s) && 1 <= n <= CharLength(s)
    ensures Finds(s[..n], 1) && ScanFrom(s[..n], 1) == WholeChars(s, n)
  {
    CharShape(s);
    ScanInsideChar(s[..n], 1);
    if n == CharLength(s) {
      assert WholeChars(s[n..], 0) == 0;
    }
  }

  /** Trimming any prefix of well-formed UTF-8 yields the longest prefix of whole characters. */
  lemma TrimYieldsWholeChars(s: Bytes, n: nat)
    requires ValidUtf8(s) && n <= |s|
    ensures Trimmed(s[..n]) == WholeChars(s, n)
    ensures ValidUtf8(s[..Trimmed(s[..n])])
    ensures forall m :: 0 <= m <= n && ValidUtf8(s[..m]) ==> m <= Trimmed(s[..n])
    ensures n - Trimmed(s[..n]) <= 3
    ensures n == |s| ==> Trimmed(s[..n]) == n
  {
    if n > 0 {
      TrimmedScan(s, n);
    } else {
      assert WholeChars(s, 0) == 0;
    }
    WholeCharsIsLongest(s, n);
    if n == |s| {
      assert s[..n] == s;
    }
  }

  function FromEnd(p: Bytes, j: nat): bv8
    requires 1 <= j <= |p|
  {
    p[|p| - j]
  }

  /** The j-th last byte is the last one outside 80..BF, and the scan reaches it. */
  ghost predicate LastLead(p: Bytes, j: nat) {
    1 <= j <= Min(4, |p|) && !IsTail(FromEnd(p, j)) && forall k {:trigger FromEnd(p, k)} :: 1 <= k < j ==> IsTail(FromEnd(p, k))
  }

  lemma {:induction false} ScanStopsAtLead(p: Bytes, i: nat, j: nat)
    requires 1 <= i <= j && LastLead(p, j)
    ensures ScanFrom(p, i) == if j < Expected(FromEnd(p, j)) then |p| - j else |p|
    decreases j - i
  {
    TailMask(FromEnd(p, i));
    if i < j {
      ScanStopsAtLead(p, i + 1, j);
    }
  }

  lemma {:induction false} ScanWithoutLead(p: Bytes, i: nat)
    requires 1 <= i && |p| > 0
    requires forall k {:trigger FromEnd(p, k)} :: 1 <= k < i && k <= Min(4, |p|) ==> IsTail(FromEnd(p, k))
    requires !exists j: nat :: LastLead(p, j)
    ensures ScanFrom(p, i) == |p| - 1
    decreases 5 - i
  {
    if i <= Min(4, |p|) {
      TailMask(FromEnd(p, i));
      assert !LastLead(p, i);
      ScanWithoutLead(p, i + 1);
    }
  }

  /**
    The cut is applied whatever the charset, although it is documented to leave other
    encodings alone: it does so exactly when the last byte outside 80..BF, among the last
    four, announces no more bytes than follow it. A complete two-byte GBK character loses
    its second byte.
   */
  lemma TrimIsNoOpIff(p: Bytes)
    requires |p| > 0
    ensures Trimmed(p) == |p| <==> exists j: nat :: LastLead(p, j) && j >= Expected(FromEnd(p, j))
    ensures Trimmed([0xC4, 0xE3]) == 1
  {
    if j: nat :| LastLead(p, j) {
      ScanStopsAtLead(p, 1, j);
      forall j': nat | LastLead(p, j')
        ensures j' == j
      {
        ScanStopsAtLead(p, 1, j');
      }
    } else {
      ScanWithoutLead(p, 1);
    }
    TailMask(0xE3);
  }

  // ----- the tee -----

  function Flatten(chunks: seq<Bytes>): Bytes {
    if chunks == [] then [] else chunks[0] + Flatten(chunks[1..])
  }

  class TeeResponseCaptureStream {
    const limitBytes: nat
    var capturedBytes: nat
    var captured: Bytes
    var forwarded: Bytes   // what the inner stream received

    ghost predicate Valid()
      reads this
    {
      capturedBytes == |captured| && captured == forwarded[..Min(limitBytes, |forwarded|)]
    }

    constructor (limit: int)
      ensures Valid() && forwarded == [] && limitBytes == Max(0, limit)
    {
      limitBytes := Max(0, limit);
      capturedBytes, captured, forwarded := 0, [], [];
    }

    method Capture(buffer: Bytes)
      requires Valid()
      modifies this`captured, this`capturedBytes
      ensures capturedBytes == |captured|
      ensures captured == (forwarded + buffer)[..Min(limitBytes, |forwarded + buffer|)]
    {
      if capturedBytes >= limitBytes || |buffer| == 0 {
        return;
      }
      var remaining := limitBytes - capturedBytes;
      var count := Min(remaining, |buffer|);
      captured := captured + buffer[..count];
      capturedBytes := capturedBytes + count;
    }

    /** One write of any size: forwarded whole, captured as far as the limit allows. */
    method Write(buffer: Bytes)
      requires Valid()
      modifies this
      ensures Valid() && forwarded == old(forwarded) + buffer
    {
      Capture(buffer);
      forwarded := forwarded + buffer;
    }
  }

  /** Whatever the chunking, everything is forwarded and the captured bytes are a prefix of it. */
  method WriteAll(chunks: seq<Bytes>, limit: int) returns (captured: Bytes, forwarded: Bytes)
    ensures forwarded == Flatten(chunks)
    ensures captured == Flatten(chunks)[..Min(Max(0, limit), |Flatten(chunks)|)]
  {
    var tee := new TeeResponseCaptureStream(limit);
    var i := 0;
    while i < |chunks|
      invariant 0 <= i <= |chunks|
      invariant tee.Valid() && tee.limitBytes == Max(0, limit)
      invariant tee.forwarded + Flatten(chunks[i..]) == Flatten(chunks)
    {
      tee.Write(chunks[i]);
      i := i + 1;
    }
    return tee.captured, tee.forwarded;
  }

  // ----- what the log keeps of a captured body -----

  /** The bytes kept of a captured, unencoded body, and whether the truncation mark follows. */
  function Logged(body: Bytes, maxBodyBytes: int): (Bytes, bool) {
    if maxBodyBytes <= 0 then ([], false)
    else if |body| > maxBodyBytes then (body[..Trimmed(body[..maxBodyBytes])], true)
    else (body[..Trimmed(body)], false)
  }

  /** Reads the stream in pieces of any size, then cuts it. */
  method ReadStream(stream: Bytes, maxBodyBytes: int) returns (kept: Bytes, truncated: bool)
    ensures (kept, truncated) == Logged(stream, maxBodyBytes)
  {
    if maxBodyBytes <= 0 {
      return [], false;
    }
    var rawBytes := new bv8[|stream|];
    var rawRead := 0;
    while rawRead < rawBytes.Length
      invariant 0 <= rawRead <= rawBytes.Length
      invariant rawBytes[..rawRead] == stream[..rawRead]
      decreases rawBytes.Length - rawRead
    {
      var n: nat :| 1 <= n <= rawBytes.Length - rawRead;
      forall i | 0 <= i < n {
        rawBytes[rawRead + i] := stream[rawRead + i];
      }
      rawRead := rawRead + n;
    }
    assert rawBytes[..] == stream;
    if rawRead > maxBodyBytes {
      var safeLen := TrimIncompleteUtf8(rawBytes, maxBodyBytes);
      assert rawBytes[..maxBodyBytes] == stream[..maxBodyBytes];
      return rawBytes[..safeLen], true;
    }
    var fullSafeLen := TrimIncompleteUtf8(rawBytes, rawRead);
    assert rawBytes[..rawRead] == stream;
    return rawBytes[..fullSafeLen], false;
  }

  /**
    End to end: a well-formed body written in any chunks through a tee with any limit is
    logged as the longest prefix of whole characters within both limits, never more than
    3 bytes short of the tighter one, and marked as truncated exactly when a positive limit
    on the logged bytes was exceeded.
   */
  lemma LoggedBodyIsWhole(chunks: seq<Bytes>, limit: int, maxBodyBytes: int)
    requires ValidUtf8(Flatten(chunks))
    ensures
      var body := Flatten(chunks);
      var room := Min(Min(Max(0, limit), |body|), Max(0, maxBodyBytes));
      var (kept, truncated) := Logged(body[..Min(Max(0, limit), |body|)], maxBodyBytes);
      && kept == body[..WholeChars(body, room)]
      && ValidUtf8(kept)
      && (forall m :: 0 <= m <= room && ValidUtf8(body[..m]) ==> m <= |kept|)
      && room - |kept| <= 3
      && (truncated <==> Min(Max(0, limit), |body|) > maxBodyBytes > 0)
  {
    var body := Flatten(chunks);
    var got := Min(Max(0, limit), |body|);
    var room := Min(got, Max(0, maxBodyBytes));
    TrimYieldsWholeChars(body, room);
    assert body[..got][..room] == body[..room];
    assert 0 < maxBodyBytes && got <= maxBodyBytes ==> body[..got] == body[..room];
  }
}
