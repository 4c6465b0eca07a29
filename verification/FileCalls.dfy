/** Any calls on one file, over its tree of blocks. */
module FileCalls {
  import opened FileBlocks
  import opened FileContents

  datatype Call = Change(op: Op) | Read(off: nat, n: nat)

  datatype Answer = Taken | Refused | Bytes(dst: seq<byte>)

  // Offsets and lengths are words.
  predicate Words(call: Call) {
    match call
    case Change(Truncate) => true
    case Change(op) => op.off < 0x1_0000_0000 && |op.src| < 0x1_0000_0000
    case Read(off, n) => off < 0x1_0000_0000 && n < 0x1_0000_0000
  }

  // What a call on these contents answers.
  function Expected(c: seq<byte>, call: Call): Answer {
    match call
    case Change(op) => if Accepted(|c|, op, MAXBYTES) then Taken else Refused
    case Read(off, n) =>
      if off > |c| || off + n >= 0x1_0000_0000 then Refused else Bytes(c[off..if off + n > |c| then |c| else off + n])
  }

  function Left(c: seq<byte>, call: Call): seq<byte> {
    if call.Change? then After(c, call.op, MAXBYTES) else c
  }

  function Changes(calls: seq<Call>): seq<Op> {
    if calls == [] then []
    else
      var n := |calls| - 1;
      if calls[n].Change? then Changes(calls[..n]) + [calls[n].op] else Changes(calls[..n])
  }

  // What the calls have left.
  function Held(calls: seq<Call>): seq<byte> {
    Replay(Changes(calls), MAXBYTES)
  }

  lemma HeldMore(calls: seq<Call>)
    requires calls != []
    ensures Held(calls) == Left(Held(calls[..|calls| - 1]), calls[|calls| - 1])
  {
    var n := |calls| - 1;
    if calls[n].Change? {
      var ops := Changes(calls[..n]) + [calls[n].op];
      assert ops[..|ops| - 1] == Changes(calls[..n]);
    }
  }

  predicate Full(used: seq<bool>) {
    forall c :: 0 <= c < |used| ==> used[c]
  }

  // One call; false where the kernel panics because no block is free.
  method CallOne(f: File, call: Call) returns (ok: bool, a: Answer)
    requires f.Whole() && Words(call)
    modifies f, f.used, f.addrs
    ensures ok ==> f.Whole() && a == Expected(old(f.Contents()), call) && f.Contents() == Left(old(f.Contents()), call)
    ensures !ok ==> Full(f.used[..])
  {
    var r: int;
    match call {
      case Change(Write(src, off)) =>
        ok, r := f.Writei(src, off);
        a := if r == -1 then Refused else Taken;
      case Change(WriteAnywhere(src, off)) =>
        ok, r := f.WriteiP(src, off);
        a := if r == -1 then Refused else Taken;
      case Change(Truncate) =>
        ok := f.Itrunc();
        a := Taken;
      case Read(off, n) =>
        var dst;
        ok, r, dst := f.Readi(off, n);
        a := if r == -1 then Refused else Bytes(dst);
    }
  }

  // On a new file, whatever the calls: each read answers what the writes before it have left, and as
  // long as there are free blocks every call is answered.
  method CallAll(f: File, calls: seq<Call>) returns (answers: seq<Answer>)
    requires f.Whole() && f.Contents() == [] && forall k :: 0 <= k < |calls| ==> Words(calls[k])
    modifies f, f.used, f.addrs
    ensures |answers| <= |calls|
    ensures forall k :: 0 <= k < |answers| ==> answers[k] == Expected(Held(calls[..k]), calls[k])
    ensures |answers| == |calls| ==> f.Whole() && f.Contents() == Held(calls)
    ensures |answers| < |calls| ==> Full(f.used[..])
  {
    answers := [];
    var ok, k := true, 0;
    assert calls[..0] == [];
    while ok && k < |calls|
      invariant 0 <= k <= |calls|
      invariant ok ==> |answers| == k && f.Whole() && f.Contents() == Held(calls[..k])
      invariant !ok ==> |answers| < |calls| && Full(f.used[..])
      invariant forall j :: 0 <= j < |answers| ==> answers[j] == Expected(Held(calls[..j]), calls[j])
      decreases ok, |calls| - k
    {
      var a;
      ok, a := CallOne(f, calls[k]);
      if ok {
        HeldMore(calls[..k + 1]);
        assert calls[..k + 1][..k] == calls[..k];
        answers, k := answers + [a], k + 1;
      }
    }
    assert calls[..|calls|] == calls;
  }
}
