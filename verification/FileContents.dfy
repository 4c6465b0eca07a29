/** What a file holds, as a sequence of bytes as long as the file, and what is in it after any calls. */
module FileContents {

  type byte = b: int | 0 <= b < 256

  function Zeros(n: nat): (s: seq<byte>)
    ensures |s| == n && forall i :: 0 <= i < n ==> s[i] == 0
  {
    if n == 0 then [] else Zeros(n - 1) + [0]
  }

  function Patched(s: seq<byte>, at: nat, src: seq<byte>): seq<byte>
    requires at + |src| <= |s|
  {
    s[..at] + src + s[at + |src|..]
  }

  lemma PatchedAt(s: seq<byte>, at: nat, src: seq<byte>, k: nat)
    requires at + |src| <= |s| && k < |s|
    ensures |Patched(s, at, src)| == |s|
    ensures Patched(s, at, src)[k] == if at <= k < at + |src| then src[k - at] else s[k]
  {
  }

  // Bytes written at an offset; what lies between the end and the offset is zero.
  function Written(c: seq<byte>, src: seq<byte>, off: nat): (d: seq<byte>)
    ensures |d| == if |src| > 0 && off + |src| > |c| then off + |src| else |c|
    ensures forall o :: 0 <= o < |d| ==> d[o] == ByteWritten(c, src, off, o)
  {
    seq(if |src| > 0 && off + |src| > |c| then off + |src| else |c|, o requires 0 <= o => ByteWritten(c, src, off, o))
  }

  function ByteWritten(c: seq<byte>, src: seq<byte>, off: nat, o: nat): byte {
    if off <= o < off + |src| then src[o - off] else if o < |c| then c[o] else 0
  }

  predicate ZeroFrom(v: seq<byte>, size: nat) {
    forall o :: size <= o < |v| ==> v[o] == 0
  }

  // The same in a longer array, whose bytes from the size on are zero.
  lemma PatchedIsWritten(v: seq<byte>, size: nat, src: seq<byte>, off: nat)
    requires size <= |v| && off + |src| <= |v| && ZeroFrom(v, size)
    ensures |Written(v[..size], src, off)| <= |v| == |Patched(v, off, src)|
    ensures ZeroFrom(Patched(v, off, src), |Written(v[..size], src, off)|)
    ensures Patched(v, off, src)[..|Written(v[..size], src, off)|] == Written(v[..size], src, off)
  {
    var w, d := Patched(v, off, src), Written(v[..size], src, off);
    forall o | 0 <= o < |v|
      ensures |w| == |v| && w[o] == if off <= o < off + |src| then src[o - off] else v[o]
    {
      PatchedAt(v, off, src, o);
    }
  }

  // ---------- calls ----------

  datatype Op =
    | Write(src: seq<byte>, off: nat)
    | WriteAnywhere(src: seq<byte>, off: nat)
    | Truncate

  predicate Accepted(size: nat, op: Op, most: nat) {
    match op
    case Write(src, off) => off <= size && off + |src| <= most
    case WriteAnywhere(src, off) => off + |src| <= most
    case Truncate => true
  }

  function After(c: seq<byte>, op: Op, most: nat): seq<byte> {
    if !Accepted(|c|, op, most) then c
    else if op.Truncate? then []
    else Written(c, op.src, op.off)
  }

  function Replay(ops: seq<Op>, most: nat): seq<byte> {
    if ops == [] then [] else After(Replay(ops[..|ops| - 1], most), ops[|ops| - 1], most)
  }

  // Call k wrote the byte at o.
  predicate Covers(ops: seq<Op>, most: nat, k: nat, o: nat) {
    k < |ops| && !ops[k].Truncate? && Accepted(|Replay(ops[..k], most)|, ops[k], most) && ops[k].off <= o < ops[k].off + |ops[k].src|
  }

  // No truncation after call k.
  predicate Lasting(ops: seq<Op>, k: nat) {
    forall j :: k < j < |ops| ==> !ops[j].Truncate?
  }

  lemma CoversPrefix(ops: seq<Op>, most: nat, k: nat, o: nat)
    requires ops != [] && k < |ops| - 1
    ensures Covers(ops[..|ops| - 1], most, k, o) == Covers(ops, most, k, o)
  {
    assert ops[..|ops| - 1][..k] == ops[..k];
  }

  // A byte holds what the last call wrote there.
  lemma {:induction false} LastWritten(ops: seq<Op>, most: nat, k: nat, o: nat)
    requires Covers(ops, most, k, o) && Lasting(ops, k) && forall j :: k < j < |ops| ==> !Covers(ops, most, j, o)
    ensures o < |Replay(ops, most)| && Replay(ops, most)[o] == ops[k].src[o - ops[k].off]
  {
    var n := |ops| - 1;
    if k < n {
      CoversPrefix(ops, most, k, o);
      forall j | k < j < n
        ensures !Covers(ops[..n], most, j, o)
      {
        CoversPrefix(ops, most, j, o);
      }
      LastWritten(ops[..n], most, k, o);
      assert !Covers(ops, most, n, o);
    }
  }

  predicate Undone(ops: seq<Op>, most: nat, o: nat) {
    forall k :: 0 <= k < |ops| && Covers(ops, most, k, o) ==> !Lasting(ops, k)
  }

  lemma UndoneBefore(ops: seq<Op>, most: nat, o: nat)
    requires ops != [] && Undone(ops, most, o) && !ops[|ops| - 1].Truncate?
    ensures Undone(ops[..|ops| - 1], most, o)
  {
    var n := |ops| - 1;
    forall k | 0 <= k < n && Covers(ops[..n], most, k, o)
      ensures !Lasting(ops[..n], k)
    {
      CoversPrefix(ops, most, k, o);
      var j :| k < j < |ops| && ops[j].Truncate?;
      assert ops[..n][j] == ops[j];
    }
  }

  // A byte that no call wrote, or none since the last truncation, is zero.
  lemma {:induction false} NeverWritten(ops: seq<Op>, most: nat, o: nat)
    requires o < |Replay(ops, most)| && Undone(ops, most, o)
    ensures Replay(ops, most)[o] == 0
  {
    var n := |ops| - 1;
    UndoneBefore(ops, most, o);
    assert Lasting(ops, n) && !Covers(ops, most, n, o);
    if o < |Replay(ops[..n], most)| {
      NeverWritten(ops[..n], most, o);
    }
  }

  ghost predicate CoversBeyond(ops: seq<Op>, most: nat, k: nat, o: nat) {
    exists e: nat :: Covers(ops, most, k, e) && o <= e
  }

  ghost predicate Reached(ops: seq<Op>, most: nat, o: nat) {
    exists k: nat :: CoversBeyond(ops, most, k, o) && Lasting(ops, k)
  }

  // The size is one more than the last place written since the last truncation.
  lemma {:induction false} SizeIsReached(ops: seq<Op>, most: nat, o: nat)
    ensures o < |Replay(ops, most)| <==> Reached(ops, most, o)
  {
    if ops != [] {
      var n := |ops| - 1;
      SizeIsReached(ops[..n], most, o);
      if ops[n].Truncate? {
        forall k: nat | CoversBeyond(ops, most, k, o)
          ensures !Lasting(ops, k)
        {
          assert k < n;
        }
      } else {
        ReachedBefore(ops, most, o);
        ReachedNow(ops, most, o);
      }
    }
  }

  lemma ReachedBefore(ops: seq<Op>, most: nat, o: nat)
    requires ops != [] && !ops[|ops| - 1].Truncate?
    ensures Reached(ops[..|ops| - 1], most, o) ==> Reached(ops, most, o)
    ensures Reached(ops, most, o) ==> Reached(ops[..|ops| - 1], most, o) || CoversBeyond(ops, most, |ops| - 1, o)
  {
    var n := |ops| - 1;
    if k: nat :| CoversBeyond(ops[..n], most, k, o) && Lasting(ops[..n], k) {
      var e :| Covers(ops[..n], most, k, e) && o <= e;
      CoversPrefix(ops, most, k, e);
      assert forall j :: k < j < n ==> ops[..n][j] == ops[j];
      assert Lasting(ops, k);
    }
    if k: nat :| CoversBeyond(ops, most, k, o) && Lasting(ops, k) {
      var e :| Covers(ops, most, k, e) && o <= e;
      if k < n {
        CoversPrefix(ops, most, k, e);
        assert Lasting(ops[..n], k);
      }
    }
  }

  lemma ReachedNow(ops: seq<Op>, most: nat, o: nat)
    requires ops != [] && !ops[|ops| - 1].Truncate?
    ensures var c := Replay(ops[..|ops| - 1], most);
            o < |Replay(ops, most)| <==> o < |c| || CoversBeyond(ops, most, |ops| - 1, o)
  {
    var n := |ops| - 1;
    if o < |Replay(ops, most)| && o >= |Replay(ops[..n], most)| {
      assert Covers(ops, most, n, ops[n].off + |ops[n].src| - 1);
    }
  }
}
