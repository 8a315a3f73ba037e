/** WriteFile (pkg/utils/writefile.go): open the path for create and
    write-only with mode 0644, write the data once, and close the file on
    the way out (deferred) whenever the open succeeded. The byte count and
    the close error are discarded. */
module FileWriter {
  import opened Prelude
  import opened Ports

  /** os.O_CREATE | os.O_WRONLY: no truncation, no append. */
  const Flags: set<OpenFlag> := {OpenCreate, OpenWriteOnly}

  /** File mode 0644. */
  const Perm: nat := 0x1A4

  /** The calls WriteFile makes: the open; then, if it succeeded, one write
      of the whole data and one close. */
  function WriteFileCalls(h: Host, path: Bytes, data: Bytes): (calls: seq<Call>)
    ensures |calls| == (if h.openError(path).Some? then 1 else 3)
    ensures calls[0] == Call.OpenFile(path, Flags, Perm)
  {
    [Call.OpenFile(path, Flags, Perm)]
    + (if h.openError(path).Some? then [] else [Call.Write(path, data), Call.Close(path)])
  }

  /** What WriteFile returns: the open error, else the write error. */
  function WriteFileError(h: Host, path: Bytes, data: Bytes): (r: Option<Error>)
    ensures h.openError(path).Some? ==> r == h.openError(path)
    ensures h.openError(path).None? ==> r == h.written(path, data).err
  {
    if h.openError(path).Some? then h.openError(path) else h.written(path, data).err
  }

  method WriteFile(fs: Host, path: Bytes, data: Bytes) returns (err: Option<Error>)
    modifies fs
    ensures fs.trace == old(fs.trace) + WriteFileCalls(fs, path, data)
    ensures err == WriteFileError(fs, path, data)
  {
    err := fs.OpenFile(path, Flags, Perm);
    if err.Some? {
      return;
    }
    var w := fs.Write(path, data);
    var _ := fs.Close(path);
    err := w.err;
  }

  /** WriteFile keeps the file discipline: the file is closed exactly when
      its open succeeded, and nothing touches it when the open failed. */
  lemma WriteFileDisciplined(h: Host, path: Bytes, data: Bytes)
    ensures Disciplined(h, WriteFileCalls(h, path, data), None)
  {
    var calls := WriteFileCalls(h, path, data);
    if h.openError(path).None? {
      var close := [Call.Close(path)];
      assert close[1..] == [];
      assert Disciplined(h, close, Some(path));
      var rest := [Call.Write(path, data)] + close;
      assert rest[1..] == close;
      assert Disciplined(h, rest, Some(path));
      assert calls[1..] == rest;
    } else {
      assert calls[1..] == [];
    }
  }

  /** The flags hold create and write-only but not truncate. */
  lemma FlagsDoNotTruncate()
    ensures OpenCreate in Flags && OpenWriteOnly in Flags && OpenTruncate !in Flags
    ensures Perm == 6 * 64 + 4 * 8 + 4
  {
  }

  /** A write that reports no error succeeds, however few bytes it
      reports; a close error never surfaces. */
  lemma ShortWriteSucceeds(h: Host, path: Bytes, data: Bytes)
    requires h.openError(path).None? && h.written(path, data).err.None?
    ensures WriteFileError(h, path, data).None?
  {
  }

  /** A failed open is the whole story: its error is returned and no write
      or close follows. */
  lemma FailedOpenWritesNothing(h: Host, path: Bytes, data: Bytes)
    requires h.openError(path).Some?
    ensures WriteFileCalls(h, path, data) == [Call.OpenFile(path, Flags, Perm)]
    ensures WriteFileError(h, path, data) == h.openError(path)
  {
  }
}
