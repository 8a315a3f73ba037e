/** The RepoCommit callback (pkg/core/repocommit.go): the synchronous part
    of the firehose event filter. Spawning the download goroutine is
    recorded as appending a Task to `dispatched`; the WaitGroup's counter is
    `waitCount`; the informational log line is appending the op to
    `logged`. */
module RepoCommit {
  import opened Prelude

  /** One operation of a commit: its action ("create", "update", "delete")
      and its "<collection>/<rkey>" path. */
  datatype Op = Op(action: Bytes, path: Bytes)

  /** A commit event: the repository it belongs to and its operations. */
  datatype Commit = Commit(repo: Bytes, ops: seq<Op>)

  /** The arguments a dispatched download receives. */
  datatype Task = Task(repo: Bytes, path: Bytes, directory: Bytes)

  const Create: Bytes := Ascii("create")
  const Feed: Bytes := Ascii("feed")

  /** strings.Contains: `t` occurs in `s` at some offset. */
  predicate Contains(s: Bytes, t: Bytes)
    decreases |s|
  {
    |t| <= |s| && (s[..|t|] == t || Contains(s[1..], t))
  }

  /** An occurrence at offset `i` makes `t` contained in `s`. */
  lemma {:induction false} OccurrenceContained(s: Bytes, t: Bytes, i: nat)
    requires i + |t| <= |s| && s[i..i + |t|] == t
    ensures Contains(s, t)
    decreases i
  {
    if i > 0 {
      assert s[1..][i - 1..i - 1 + |t|] == s[i..i + |t|];
      OccurrenceContained(s[1..], t, i - 1);
    }
  }

  /** A contained string has an occurrence at some offset. */
  lemma {:induction false} ContainedOccurs(s: Bytes, t: Bytes) returns (i: nat)
    requires Contains(s, t)
    ensures i + |t| <= |s| && s[i..i + |t|] == t
    decreases |s|
  {
    if s[..|t|] == t {
      i := 0;
    } else {
      var j := ContainedOccurs(s[1..], t);
      assert s[1..][j..j + |t|] == s[j + 1..j + 1 + |t|];
      i := j + 1;
    }
  }

  /** The op filter: a creation whose path mentions "feed" anywhere. */
  predicate Selected(op: Op)
  {
    op.action == Create && Contains(op.path, Feed)
  }

  /** `t` occurs in `s` at offset `i`. */
  predicate OccursAt(s: Bytes, t: Bytes, i: int) {
    0 <= i && i + |t| <= |s| && s[i..i + |t|] == t
  }

  /** The filter in plain terms: a creation whose path has "feed" at some
      offset. */
  lemma SelectedIffOccurrence(op: Op)
    ensures Selected(op) <==> op.action == Create && exists i :: OccursAt(op.path, Feed, i)
  {
    if Selected(op) {
      var i := ContainedOccurs(op.path, Feed);
      assert OccursAt(op.path, Feed, i);
    } else if op.action == Create && exists i :: OccursAt(op.path, Feed, i) {
      var i :| OccursAt(op.path, Feed, i);
      OccurrenceContained(op.path, Feed, i);
      assert false;
    }
  }

  /** The selected ops, in order. */
  function Selection(ops: seq<Op>): (r: seq<Op>)
    ensures |r| <= |ops|
    ensures forall k :: 0 <= k < |r| ==> Selected(r[k])
  {
    if ops == [] then []
    else Selection(ops[..|ops| - 1]) + (if Selected(ops[|ops| - 1]) then [ops[|ops| - 1]] else [])
  }

  /** The ops that are not selected, in order. */
  function Rejection(ops: seq<Op>): (r: seq<Op>)
    ensures |r| <= |ops|
    ensures forall k :: 0 <= k < |r| ==> !Selected(r[k])
  {
    if ops == [] then []
    else Rejection(ops[..|ops| - 1]) + (if Selected(ops[|ops| - 1]) then [] else [ops[|ops| - 1]])
  }

  /** The downloads dispatched for a list of ops: one per selected op, in
      order, each with the event's repository, the op's own path and the
      fixed directory. */
  function Dispatches(repo: Bytes, directory: Bytes, ops: seq<Op>): (r: seq<Task>)
    ensures |r| == |Selection(ops)|
    ensures forall k :: 0 <= k < |r| ==> r[k] == Task(repo, Selection(ops)[k].path, directory)
  {
    var sel := Selection(ops);
    seq(|sel|, k requires 0 <= k < |sel| => Task(repo, sel[k].path, directory))
  }

  class CommitHandler {
    /** The resolved DID of the watched account. */
    const did: Bytes
    /** The download directory every task receives. */
    const directory: Bytes
    var dispatched: seq<Task>
    var waitCount: nat
    var logged: seq<Op>

    constructor (did: Bytes, directory: Bytes)
      ensures this.did == did && this.directory == directory
      ensures dispatched == [] && waitCount == 0 && logged == []
    {
      this.did := did;
      this.directory := directory;
      dispatched := [];
      waitCount := 0;
      logged := [];
    }

    /** The callback body. Events of other repositories change nothing;
        otherwise each op is dispatched (counter bumped first) or logged,
        in op order. The callback always returns no error. */
    method RepoCommit(evt: Commit) returns (err: Option<Error>)
      modifies this
      ensures err == None
      ensures evt.repo != did ==>
                dispatched == old(dispatched) && waitCount == old(waitCount) && logged == old(logged)
      ensures evt.repo == did ==>
                dispatched == old(dispatched) + Dispatches(evt.repo, directory, evt.ops)
                && waitCount == old(waitCount) + |Selection(evt.ops)|
                && logged == old(logged) + Rejection(evt.ops)
    {
      if evt.repo != did {
        return None;
      }
      for k := 0 to |evt.ops|
        invariant dispatched == old(dispatched) + Dispatches(evt.repo, directory, evt.ops[..k])
        invariant waitCount == old(waitCount) + |Selection(evt.ops[..k])|
        invariant logged == old(logged) + Rejection(evt.ops[..k])
      {
        var op := evt.ops[k];
        assert evt.ops[..k + 1][..k] == evt.ops[..k];
        if op.action == Create && Contains(op.path, Feed) {
          waitCount := waitCount + 1;
          dispatched := dispatched + [Task(evt.repo, op.path, directory)];
        } else {
          logged := logged + [op];
        }
      }
      assert evt.ops[..|evt.ops|] == evt.ops;
      return None;
    }
  }

  /** Filtering one more op extends exactly one of the two lists. */
  lemma FilterSnoc(init: seq<Op>, last: Op)
    ensures Selection(init + [last]) == Selection(init) + (if Selected(last) then [last] else [])
    ensures Rejection(init + [last]) == Rejection(init) + (if Selected(last) then [] else [last])
  {
    assert (init + [last])[..|init|] == init;
  }

  /** Every op is dispatched or logged, never both and never neither: the
      two lists together are the ops. */
  lemma {:induction false} Partition(ops: seq<Op>)
    ensures multiset(Selection(ops)) + multiset(Rejection(ops)) == multiset(ops)
    ensures |Selection(ops)| + |Rejection(ops)| == |ops|
    decreases |ops|
  {
    if ops != [] {
      var init := ops[..|ops| - 1];
      var last := ops[|ops| - 1];
      assert ops == init + [last];
      FilterSnoc(init, last);
      Partition(init);
      SplitSnoc(Selection(init), Rejection(init), init, last, Selected(last));
    }
  }

  /** Adding one element to the whole and to exactly one of two parts keeps
      the parts a split of the whole. */
  lemma SplitSnoc(a: seq<Op>, b: seq<Op>, whole: seq<Op>, x: Op, left: bool)
    requires multiset(a) + multiset(b) == multiset(whole) && |a| + |b| == |whole|
    ensures var a' := a + (if left then [x] else []);
            var b' := b + (if left then [] else [x]);
            multiset(a') + multiset(b') == multiset(whole + [x]) && |a'| + |b'| == |whole| + 1
  {
  }

  /** An op of the list is selected exactly when it shows up among the
      selected ops; the selection keeps no op that is not in the list. */
  lemma {:induction false} SelectionMembers(ops: seq<Op>, op: Op)
    ensures op in Selection(ops) <==> op in ops && Selected(op)
    decreases |ops|
  {
    if ops != [] {
      var init := ops[..|ops| - 1];
      SelectionMembers(init, op);
      assert ops == init + [ops[|ops| - 1]];
    }
  }

  /** Since the whole path is searched, "feed" in the record key is enough:
      a creation in any collection whose rkey mentions "feed" is
      dispatched. */
  lemma FeedInRkeySelected(collection: Bytes, rkey: Bytes)
    requires Contains(rkey, Feed)
    ensures Selected(Op(Create, collection + [Slash] + rkey))
  {
    var i := ContainedOccurs(rkey, Feed);
    var path := collection + [Slash] + rkey;
    var j := |collection| + 1 + i;
    assert path[j..j + |Feed|] == rkey[i..i + |Feed|];
    OccurrenceContained(path, Feed, j);
  }

  /** Creating one of the account's own posts ("app.bsky.feed.post/...")
      is dispatched. */
  lemma OwnPostSelected(rkey: Bytes)
    ensures Selected(Op(Create, Ascii("app.bsky.feed.post") + [Slash] + rkey))
  {
    var path := Ascii("app.bsky.feed.post") + [Slash] + rkey;
    assert path[9..13] == Feed;
    OccurrenceContained(path, Feed, 9);
  }

  /** A deletion is never dispatched, whatever its path. */
  lemma DeleteNotSelected(path: Bytes)
    ensures !Selected(Op(Ascii("delete"), path))
  {
    assert Ascii("delete")[0] != Create[0];
  }
}
