/** The calls that users of a table's pages make, and what they come to: a map from page numbers to
    contents, a root, and a list of free pages. */
module PageCalls {
  import opened DiskSpace

  datatype Store = Store(pages: map<nat, Content>, root: nat, list: seq<nat>, count: nat)

  // ---------- calls ----------

  datatype Call =
    | Read(x: nat)
    | Write(x: nat, data: Content)
    | SetRoot(root: nat)
    | Take
    | Give(x: nat)

  datatype Answer =
    | Data(data: Content)
    | NewPage(p: nat)
    | Done
    | NoAnswer
    | GoneAstray

  predicate Allowed(s: Store, c: Call) {
    match c
    case Read(x) => x in s.pages
    case Write(x, data) => 0 < x < s.count && x !in s.list && data.Node?
    case SetRoot(_) => true
    case Take => true
    case Give(x) => 0 < x < s.count && x !in s.list
  }

  function Next(s: Store, c: Call): Store {
    match c
    case Read(_) => s
    case Write(x, data) => s.(pages := s.pages[x := data])
    case SetRoot(root) => s.(root := root)
    case Take => s.(list := ListAfter(s.list, s.count), count := if s.list == [] then s.count + 100 else s.count)
    case Give(x) => s.(pages := s.pages - {x}, list := [x] + s.list)
  }

  function Reply(s: Store, c: Call): Answer
    requires Allowed(s, c)
  {
    match c
    case Read(x) => Data(s.pages[x])
    case Take => NewPage(if s.list == [] then s.count else s.list[0])
    case _ => Done
  }

  // ---------- one after the other ----------

  function After(s: Store, calls: seq<Call>): Store {
    if calls == [] then s else Next(After(s, calls[..|calls| - 1]), calls[|calls| - 1])
  }

  predicate AllowedAt(s: Store, calls: seq<Call>, k: nat)
    requires k < |calls|
  {
    Allowed(After(s, calls[..k]), calls[k])
  }

  function ReplyAt(s: Store, calls: seq<Call>, k: nat): Answer
    requires k < |calls| && AllowedAt(s, calls, k)
  {
    Reply(After(s, calls[..k]), calls[k])
  }

  ghost predicate AllAllowed(s: Store, calls: seq<Call>) {
    forall k {:trigger AllowedAt(s, calls, k)} :: 0 <= k < |calls| ==> AllowedAt(s, calls, k)
  }

  // As far as there are answers, they are those of the store.
  ghost predicate Answered(s: Store, calls: seq<Call>, answers: seq<Answer>) {
    |answers| <= |calls|
    && forall k {:trigger AllowedAt(s, calls, k)} :: 0 <= k < |answers| ==> AllowedAt(s, calls, k) && answers[k] == ReplyAt(s, calls, k)
  }

  lemma AllowedBefore(s: Store, calls: seq<Call>)
    requires AllAllowed(s, calls) && calls != []
    ensures AllAllowed(s, calls[..|calls| - 1]) && Allowed(After(s, calls[..|calls| - 1]), calls[|calls| - 1])
  {
    var n := |calls| - 1;
    forall k | 0 <= k < n
      ensures AllowedAt(s, calls[..n], k)
    {
      assert AllowedAt(s, calls, k) && calls[..n][..k] == calls[..k];
    }
    assert AllowedAt(s, calls, n);
  }

  lemma AllowedMore(s: Store, calls: seq<Call>, c: Call)
    requires AllAllowed(s, calls) && Allowed(After(s, calls), c)
    ensures AllAllowed(s, calls + [c]) && After(s, calls + [c]) == Next(After(s, calls), c)
  {
    var more := calls + [c];
    assert more[..|calls|] == calls;
    forall k | 0 <= k < |more|
      ensures AllowedAt(s, more, k)
    {
      if k < |calls| {
        assert AllowedAt(s, calls, k) && more[..k] == calls[..k];
      }
    }
  }

  lemma AnsweredOne(s: Store, calls: seq<Call>, answers: seq<Answer>, a: Answer)
    requires AllAllowed(s, calls) && |answers| < |calls| && Answered(s, calls, answers) && AllowedAt(s, calls, |answers|)
    requires a == ReplyAt(s, calls, |answers|)
    ensures Answered(s, calls, answers + [a])
  {
    forall k | 0 <= k < |answers| + 1
      ensures AllowedAt(s, calls, k) && (answers + [a])[k] == ReplyAt(s, calls, k)
    {
      assert k < |answers| ==> AllowedAt(s, calls, k);
    }
  }

  lemma AnsweredMore(s: Store, calls: seq<Call>, answers: seq<Answer>)
    requires calls != [] && AllAllowed(s, calls) && Answered(s, calls[..|calls| - 1], answers)
    ensures Answered(s, calls, answers)
  {
    var n := |calls| - 1;
    forall k | 0 <= k < |answers|
      ensures AllowedAt(s, calls, k) && answers[k] == ReplyAt(s, calls, k)
    {
      assert AllowedAt(s, calls[..n], k) && AllowedAt(s, calls, k) && calls[..n][..k] == calls[..k];
    }
  }
}
