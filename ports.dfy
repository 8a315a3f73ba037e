/** The side-effecting ports the download workflow talks to: the blob
    endpoint of the API client (after its retries) and the FileSystem / File
    interfaces of pkg/utils/writefile.go. Their answers are fixed oracles
    given at construction; every call is appended to `trace`, so the order
    of fetches, opens, writes and closes is observable. An open file is
    named by its path. */
module Ports {
  import opened Prelude

  /** The open flags the code passes (os.O_CREATE | os.O_WRONLY). */
  datatype OpenFlag = OpenCreate | OpenWriteOnly | OpenTruncate

  /** What File.Write reports: the byte count and an error, if any. */
  datatype Written = Written(count: nat, err: Option<Error>)

  /** One interaction with the outside world. */
  datatype Call =
    | GetBlob(repo: Bytes, cid: Bytes)
    | OpenFile(path: Bytes, flags: set<OpenFlag>, perm: nat)
    | Write(path: Bytes, data: Bytes)
    | Close(path: Bytes)

  class Host {
    /** The outcome of fetching a blob of a repository, retries included. */
    const blob: (Bytes, Bytes) -> Result<Bytes>
    /** The error opening a path gives, if any. */
    const openError: Bytes -> Option<Error>
    /** What writing some data to an open path reports. */
    const written: (Bytes, Bytes) -> Written
    /** The error closing a path gives, if any. */
    const closeError: Bytes -> Option<Error>
    /** Every call made so far, oldest first. */
    var trace: seq<Call>

    constructor (blob: (Bytes, Bytes) -> Result<Bytes>, openError: Bytes -> Option<Error>,
                 written: (Bytes, Bytes) -> Written, closeError: Bytes -> Option<Error>)
      ensures this.blob == blob && this.openError == openError
      ensures this.written == written && this.closeError == closeError
      ensures trace == []
    {
      this.blob := blob;
      this.openError := openError;
      this.written := written;
      this.closeError := closeError;
      trace := [];
    }

    method GetBlob(repo: Bytes, cid: Bytes) returns (r: Result<Bytes>)
      modifies this
      ensures trace == old(trace) + [Call.GetBlob(repo, cid)]
      ensures r == blob(repo, cid)
    {
      trace := trace + [Call.GetBlob(repo, cid)];
      r := blob(repo, cid);
    }

    method OpenFile(path: Bytes, flags: set<OpenFlag>, perm: nat) returns (err: Option<Error>)
      modifies this
      ensures trace == old(trace) + [Call.OpenFile(path, flags, perm)]
      ensures err == openError(path)
    {
      trace := trace + [Call.OpenFile(path, flags, perm)];
      err := openError(path);
    }

    method Write(path: Bytes, data: Bytes) returns (w: Written)
      modifies this
      ensures trace == old(trace) + [Call.Write(path, data)]
      ensures w == written(path, data)
    {
      trace := trace + [Call.Write(path, data)];
      w := written(path, data);
    }

    method Close(path: Bytes) returns (err: Option<Error>)
      modifies this
      ensures trace == old(trace) + [Call.Close(path)]
      ensures err == closeError(path)
    {
      trace := trace + [Call.Close(path)];
      err := closeError(path);
    }
  }

  /** The file discipline, as an automaton over a list of calls started with
      `current` open (None: no file open): a file is opened only when none is
      open, and it is open afterwards only if the open succeeded; writes and
      the close go to the open file only; no blob is fetched while a file is
      open; and the list ends with no file open. */
  predicate Disciplined(h: Host, calls: seq<Call>, current: Option<Bytes>)
    decreases |calls|
  {
    if calls == [] then current.None?
    else
      match calls[0]
      case GetBlob(_, _) => current.None? && Disciplined(h, calls[1..], current)
      case OpenFile(p, _, _) =>
        current.None? && Disciplined(h, calls[1..], if h.openError(p).None? then Some(p) else None)
      case Write(p, _) => current == Some(p) && Disciplined(h, calls[1..], current)
      case Close(p) => current == Some(p) && Disciplined(h, calls[1..], None)
  }

  /** Disciplined runs compose: a run that leaves no file open may be
      followed by another. */
  lemma {:induction false} DisciplinedConcat(h: Host, a: seq<Call>, b: seq<Call>, current: Option<Bytes>)
    requires Disciplined(h, a, current) && Disciplined(h, b, None)
    ensures Disciplined(h, a + b, current)
    decreases |a|
  {
    if a == [] {
      assert a + b == b;
    } else {
      assert (a + b)[1..] == a[1..] + b;
      match a[0]
      case GetBlob(_, _) => DisciplinedConcat(h, a[1..], b, current);
      case OpenFile(p, _, _) =>
        DisciplinedConcat(h, a[1..], b, if h.openError(p).None? then Some(p) else None);
      case Write(_, _) => DisciplinedConcat(h, a[1..], b, current);
      case Close(_) => DisciplinedConcat(h, a[1..], b, None);
    }
  }
}
