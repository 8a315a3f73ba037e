/** The download workflow of pkg/core/downloadposts.go: DownloadBlobs
    fetches and stores each blob of a post's media, DownloadPost runs the
    whole chain (identifier, details, blobs, metadata) and stops at the
    first failing stage. Both are methods over the Host port; their effect
    is the list of calls they append to its trace. */
module DownloadPosts {
  import opened Prelude
  import opened Filename
  import opened ExtractMedia
  import opened Ports
  import opened FileWriter
  import opened FetchPost
  import opened FindExpression

  /** Every file name is cut to this many bytes. */
  const MaxBytes: int := 255

  /** The extension of the metadata file. */
  const Json: Bytes := Ascii("json")

  /** A path builder with MakeFilepath's parameters: directory, rkey,
      handle, text, extension, file index and byte limit. */
  type PathBuilder = (Bytes, Bytes, Bytes, Bytes, Bytes, int, int) -> Bytes

  /** The MakeFilepath of variant v. pkg/utils carries three versions of
      it; the model treats them as alternatives picked by v (as written,
      the unconstrained filename.go would be compiled beside the Unix or
      Windows file). The download steps are stated for whichever builder
      they are given. */
  function Builder(v: Variant): PathBuilder {
    (directory, rkey, handle, text, mediaType, i, maxBytes) =>
      MakeFilepath(v, directory, rkey, handle, text, mediaType, i, maxBytes)
  }

  /** One blob to store: its content id and the path it is written to. */
  datatype Item = Item(cid: Bytes, path: Bytes)

  /** Where a blob with file index `i` of a post is stored: named after the
      post's rkey, handle and text, with the extension of the post's own
      media record. */
  function ItemPath(mk: PathBuilder, d: PostDetails, directory: Bytes, i: int): Bytes
    requires d.media.Some?
  {
    mk(directory, d.rkey, d.handle, d.text, d.media.value.mediaType, i, MaxBytes)
  }

  /** With the code's MakeFilepath, a blob of a post is stored under the
      post's rkey, handle and text with its file index, and the path ends
      with "." and the post's media extension. */
  lemma ItemPathExtension(v: Variant, d: PostDetails, directory: Bytes, i: int)
    requires d.media.Some?
    ensures var p := ItemPath(Builder(v), d, directory, i);
            var ext := d.media.value.mediaType;
            p == MakeFilepath(v, directory, d.rkey, d.handle, d.text, ext, i, 255)
            && |p| > |ext| && p[|p| - |ext| - 1..] == [Dot] + ext
  {
  }

  /** The file index of image `k` of `n`: numbered from 1 when there are
      several images, 0 when there is only one. */
  function ImageIndex(n: nat, k: nat): int {
    if n > 1 then k + 1 else 0
  }

  /** The images of a media record in download order, each with its path. */
  function ImageItems(mk: PathBuilder, d: PostDetails, directory: Bytes, images: seq<Bytes>): (r: seq<Item>)
    requires d.media.Some?
    ensures |r| == |images|
    ensures forall k :: 0 <= k < |images| ==>
              r[k] == Item(images[k], ItemPath(mk, d, directory, ImageIndex(|images|, k)))
  {
    seq(|images|, k requires 0 <= k < |images| =>
          Item(images[k], ItemPath(mk, d, directory, ImageIndex(|images|, k))))
  }

  /** The blobs of a media record in download order: the images, then the
      video, with index 0, when its id is not empty. */
  function Plan(mk: PathBuilder, d: PostDetails, directory: Bytes, m: Media): (r: seq<Item>)
    requires d.media.Some?
    ensures |r| == |m.imageCids| + (if m.videoCid != [] then 1 else 0)
    ensures r[..|m.imageCids|] == ImageItems(mk, d, directory, m.imageCids)
  {
    ImageItems(mk, d, directory, m.imageCids)
    + (if m.videoCid != [] then [Item(m.videoCid, ItemPath(mk, d, directory, 0))] else [])
  }

  /** The calls a piece of work makes and the error it ends with, if any. */
  datatype Run = Run(calls: seq<Call>, err: Option<Error>)

  /** Fetching one blob of a repository and, when that succeeds, writing it
      to its path. */
  function ItemRun(h: Host, repo: Bytes, item: Item): (r: Run)
    ensures |r.calls| >= 1 && r.calls[0] == Call.GetBlob(repo, item.cid)
  {
    var blob := h.blob(repo, item.cid);
    if blob.Failure? then Run([Call.GetBlob(repo, item.cid)], Some(blob.error))
    else Run([Call.GetBlob(repo, item.cid)] + WriteFileCalls(h, item.path, blob.value),
             WriteFileError(h, item.path, blob.value))
  }

  /** The items one after the other, stopping at the first error. */
  function BlobRun(h: Host, repo: Bytes, items: seq<Item>): (r: Run)
    decreases |items|
  {
    if items == [] then Run([], None)
    else
      var prev := BlobRun(h, repo, items[..|items| - 1]);
      if prev.err.Some? then prev
      else
        var step := ItemRun(h, repo, items[|items| - 1]);
        Run(prev.calls + step.calls, step.err)
  }

  /** An empty plan makes no call; a run that ends without error has made
      at least one call (the fetch) per item. */
  lemma {:induction false} BlobRunCalls(h: Host, repo: Bytes, items: seq<Item>)
    ensures items == [] ==> BlobRun(h, repo, items) == Run([], None)
    ensures BlobRun(h, repo, items).err.None? ==> |BlobRun(h, repo, items).calls| >= |items|
    decreases |items|
  {
    if items != [] {
      BlobRunCalls(h, repo, items[..|items| - 1]);
    }
  }

  /** Once a run has failed, further items change nothing: no more fetches
      and no more writes. */
  lemma {:induction false} AbortIsFinal(h: Host, repo: Bytes, items: seq<Item>, more: seq<Item>)
    requires BlobRun(h, repo, items).err.Some?
    ensures BlobRun(h, repo, items + more) == BlobRun(h, repo, items)
    decreases |more|
  {
    if more != [] {
      var init := more[..|more| - 1];
      AbortIsFinal(h, repo, items, init);
      assert (items + more)[..|items + more| - 1] == items + init;
    } else {
      assert items + more == items;
    }
  }

  /** One more item: the run so far, then that item unless the run has
      already failed. */
  lemma BlobRunStep(h: Host, repo: Bytes, items: seq<Item>, k: nat)
    requires k < |items|
    requires BlobRun(h, repo, items[..k]).err.None?
    ensures var prev := BlobRun(h, repo, items[..k]);
            var step := ItemRun(h, repo, items[k]);
            BlobRun(h, repo, items[..k + 1]) == Run(prev.calls + step.calls, step.err)
  {
    assert items[..k + 1][..k] == items[..k];
  }

  /** A run that fails after `k` items is the whole run. */
  lemma FailedPrefixIsRun(h: Host, repo: Bytes, items: seq<Item>, k: nat)
    requires k <= |items|
    requires BlobRun(h, repo, items[..k]).err.Some?
    ensures BlobRun(h, repo, items) == BlobRun(h, repo, items[..k])
  {
    AbortIsFinal(h, repo, items[..k], items[k..]);
    assert items[..k] + items[k..] == items;
  }

  /** The body both download steps share: fetch one blob of the author's
      repository, then name its file after the post with the given index
      and the extension of the post's media record, and write it there. */
  method FetchAndStore(h: Host, mk: PathBuilder, d: PostDetails, directory: Bytes, cid: Bytes, number: int)
    returns (err: Option<Error>)
    requires d.media.Some?
    modifies h
    ensures var run := ItemRun(h, d.repo, Item(cid, ItemPath(mk, d, directory, number)));
            h.trace == old(h.trace) + run.calls && err == run.err
  {
    var res := h.GetBlob(d.repo, cid);
    if res.Failure? {
      return Some(res.error);
    }
    var filename := mk(directory, d.rkey, d.handle, d.text, d.media.value.mediaType, number, MaxBytes);
    err := WriteFile(h, filename, res.value);
  }

  /** DownloadBlobs: the images in order, then the video; every blob is
      fetched with the post author's repository and stored with the
      extension of `d.media`, not of `media`. The first error is returned. */
  method DownloadBlobs(h: Host, mk: PathBuilder, media: Media, d: PostDetails, directory: Bytes)
    returns (err: Option<Error>)
    requires d.media.Some?
    modifies h
    ensures h.trace == old(h.trace) + BlobRun(h, d.repo, Plan(mk, d, directory, media)).calls
    ensures err == BlobRun(h, d.repo, Plan(mk, d, directory, media)).err
  {
    ghost var items := Plan(mk, d, directory, media);
    var n := |media.imageCids|;
    err := DownloadImages(h, mk, media.imageCids, d, directory);
    if err.Some? {
      FailedPrefixIsRun(h, d.repo, items, n);
      return;
    }
    if media.videoCid != [] {
      BlobRunStep(h, d.repo, items, n);
      assert items[..n + 1] == items;
      err := FetchAndStore(h, mk, d, directory, media.videoCid, 0);
    } else {
      assert items[..n] == items;
    }
  }

  /** The image loop of DownloadBlobs: the images in order, stopping at the
      first error. */
  method DownloadImages(h: Host, mk: PathBuilder, images: seq<Bytes>, d: PostDetails, directory: Bytes)
    returns (err: Option<Error>)
    requires d.media.Some?
    modifies h
    ensures var run := BlobRun(h, d.repo, ImageItems(mk, d, directory, images));
            h.trace == old(h.trace) + run.calls && err == run.err
  {
    ghost var items := ImageItems(mk, d, directory, images);
    err := None;
    for k := 0 to |images|
      invariant h.trace == old(h.trace) + BlobRun(h, d.repo, items[..k]).calls
      invariant BlobRun(h, d.repo, items[..k]).err.None? && err.None?
    {
      var number := 0;
      if |images| > 1 {
        number := k + 1;
      }
      assert Item(images[k], ItemPath(mk, d, directory, number)) == items[k] by {
        assert number == ImageIndex(|images|, k);
      }
      ghost var prev := BlobRun(h, d.repo, items[..k]).calls;
      BlobRunStep(h, d.repo, items, k);
      err := FetchAndStore(h, mk, d, directory, images[k], number);
      assert h.trace == old(h.trace) + (prev + ItemRun(h, d.repo, items[k]).calls);
      if err.Some? {
        FailedPrefixIsRun(h, d.repo, items, k + 1);
        return;
      }
    }
    assert items[..|images|] == items;
  }

  /** The blob fetches among some calls, in order. */
  function Fetches(calls: seq<Call>): (r: seq<Call>)
    ensures forall k :: 0 <= k < |r| ==> r[k].GetBlob?
  {
    if calls == [] then []
    else (if calls[0].GetBlob? then [calls[0]] else []) + Fetches(calls[1..])
  }

  /** The paths opened among some calls, in order. */
  function Opened(calls: seq<Call>): seq<Bytes> {
    if calls == [] then []
    else (if calls[0].OpenFile? then [calls[0].path] else []) + Opened(calls[1..])
  }

  /** Both filters distribute over concatenation. */
  lemma {:induction false} FiltersConcat(a: seq<Call>, b: seq<Call>)
    ensures Fetches(a + b) == Fetches(a) + Fetches(b)
    ensures Opened(a + b) == Opened(a) + Opened(b)
    decreases |a|
  {
    if a == [] {
      assert a + b == b;
    } else {
      assert (a + b)[1..] == a[1..] + b;
      FiltersConcat(a[1..], b);
    }
  }

  /** WriteFile fetches nothing and opens only its own path. */
  lemma WriteFileFilters(h: Host, path: Bytes, data: Bytes)
    ensures Fetches(WriteFileCalls(h, path, data)) == []
    ensures Opened(WriteFileCalls(h, path, data)) == [path]
  {
    var w := WriteFileCalls(h, path, data);
    if h.openError(path).Some? {
      assert w[1..] == [];
    } else {
      var close := [Call.Close(path)];
      assert close[1..] == [];
      assert Fetches(close) == [];
      assert Opened(close) == [];
      var rest := [Call.Write(path, data)] + close;
      assert rest[1..] == close;
      assert Fetches(rest) == [] && Opened(rest) == [];
      assert w[1..] == rest;
    }
  }

  /** One item fetches its blob, and opens its path exactly when the fetch
      succeeded; it ends without error only if the fetch succeeded. */
  lemma ItemRunFilters(h: Host, repo: Bytes, item: Item)
    ensures var r := ItemRun(h, repo, item);
            Fetches(r.calls) == [Call.GetBlob(repo, item.cid)]
            && Opened(r.calls) == (if h.blob(repo, item.cid).Success? then [item.path] else [])
            && (r.err.None? ==> h.blob(repo, item.cid).Success?)
  {
    var fetch := [Call.GetBlob(repo, item.cid)];
    assert Fetches(fetch) == fetch && Opened(fetch) == [] by {
      assert fetch[1..] == [];
    }
    if h.blob(repo, item.cid).Success? {
      var data := h.blob(repo, item.cid).value;
      FiltersConcat(fetch, WriteFileCalls(h, item.path, data));
      WriteFileFilters(h, item.path, data);
    }
  }

  /** The fetch of every item of a repository. */
  function FetchList(repo: Bytes, items: seq<Item>): (r: seq<Call>)
    ensures |r| == |items|
    ensures forall k :: 0 <= k < |items| ==> r[k] == Call.GetBlob(repo, items[k].cid)
  {
    seq(|items|, k requires 0 <= k < |items| => Call.GetBlob(repo, items[k].cid))
  }

  /** The path of every item. */
  function PathList(items: seq<Item>): (r: seq<Bytes>)
    ensures |r| == |items|
    ensures forall k :: 0 <= k < |items| ==> r[k] == items[k].path
  {
    seq(|items|, k requires 0 <= k < |items| => items[k].path)
  }

  /** Running one more item after a run without error: the item's fetch
      and, if the fetch succeeded, its path are appended. */
  lemma BlobRunSnoc(h: Host, repo: Bytes, init: seq<Item>, item: Item)
    requires BlobRun(h, repo, init).err.None?
    ensures var prev := BlobRun(h, repo, init);
            var r := BlobRun(h, repo, init + [item]);
            Fetches(r.calls) == Fetches(prev.calls) + [Call.GetBlob(repo, item.cid)]
            && Opened(r.calls) == Opened(prev.calls) + (if h.blob(repo, item.cid).Success? then [item.path] else [])
            && (r.err.None? ==> h.blob(repo, item.cid).Success?)
  {
    assert (init + [item])[..|init|] == init;
    var prev := BlobRun(h, repo, init);
    var step := ItemRun(h, repo, item);
    FiltersConcat(prev.calls, step.calls);
    ItemRunFilters(h, repo, item);
  }

  /** A run fetches the items in order, each from the author's repository,
      stopping early only on an error: on success every item is fetched
      exactly once. */
  lemma {:induction false} BlobRunFetches(h: Host, repo: Bytes, items: seq<Item>)
    ensures var r := BlobRun(h, repo, items);
            var f := |Fetches(r.calls)|;
            f <= |items| && Fetches(r.calls) == FetchList(repo, items[..f])
            && (r.err.None? ==> f == |items|)
    decreases |items|
  {
    if items == [] {
      assert items[..0] == [];
    } else {
      var n := |items|;
      var init := items[..n - 1];
      var item := items[n - 1];
      assert items == init + [item];
      BlobRunFetches(h, repo, init);
      var prev := BlobRun(h, repo, init);
      var pf := |Fetches(prev.calls)|;
      assert init[..pf] == items[..pf];
      if prev.err.None? {
        BlobRunSnoc(h, repo, init, item);
        assert init[..pf] == init;
        assert items[..n] == items;
        assert FetchList(repo, items) == FetchList(repo, init) + [Call.GetBlob(repo, item.cid)];
      }
    }
  }

  /** A run opens the paths of the items in order, stopping early only on
      an error: on success every item is written. */
  lemma {:induction false} BlobRunOpens(h: Host, repo: Bytes, items: seq<Item>)
    ensures var r := BlobRun(h, repo, items);
            var o := |Opened(r.calls)|;
            o <= |items| && Opened(r.calls) == PathList(items[..o])
            && (r.err.None? ==> o == |items|)
    decreases |items|
  {
    if items == [] {
      assert items[..0] == [];
    } else {
      var n := |items|;
      var init := items[..n - 1];
      var item := items[n - 1];
      BlobRunOpens(h, repo, init);
      var prev := BlobRun(h, repo, init);
      var po := |Opened(prev.calls)|;
      assert init[..po] == items[..po];
      if prev.err.None? {
        assert items == init + [item];
        BlobRunSnoc(h, repo, init, item);
        if h.blob(repo, item.cid).Success? {
          assert PathList(items) == PathList(init) + [item.path];
          assert items[..n] == items;
        }
      }
    }
  }

  /** Every run keeps the file discipline: each file opened is written at
      most once and closed exactly once, and no blob is fetched while a file
      is open. */
  lemma {:induction false} BlobRunDisciplined(h: Host, repo: Bytes, items: seq<Item>)
    ensures Disciplined(h, BlobRun(h, repo, items).calls, None)
    decreases |items|
  {
    if items != [] {
      var init := items[..|items| - 1];
      BlobRunDisciplined(h, repo, init);
      var prev := BlobRun(h, repo, init);
      if prev.err.None? {
        var item := items[|items| - 1];
        ItemRunDisciplined(h, repo, item);
        DisciplinedConcat(h, prev.calls, ItemRun(h, repo, item).calls, None);
      }
    }
  }

  /** One item keeps the file discipline. */
  lemma ItemRunDisciplined(h: Host, repo: Bytes, item: Item)
    ensures Disciplined(h, ItemRun(h, repo, item).calls, None)
  {
    var calls := ItemRun(h, repo, item).calls;
    var blob := h.blob(repo, item.cid);
    if blob.Success? {
      WriteFileDisciplined(h, item.path, blob.value);
      assert calls[1..] == WriteFileCalls(h, item.path, blob.value);
    } else {
      assert calls[1..] == [];
    }
  }

  /** The numbering of the files: several images are numbered 1, 2, ... in
      list order; a single image and the video get no number. */
  lemma PlanNumbering(mk: PathBuilder, d: PostDetails, directory: Bytes, m: Media)
    requires d.media.Some?
    ensures var p := Plan(mk, d, directory, m);
            (|m.imageCids| == 1 ==> p[0] == Item(m.imageCids[0], ItemPath(mk, d, directory, 0)))
            && (|m.imageCids| > 1 ==>
                  forall k :: 0 <= k < |m.imageCids| ==> p[k] == Item(m.imageCids[k], ItemPath(mk, d, directory, k + 1)))
            && (m.videoCid != [] ==> p[|m.imageCids|] == Item(m.videoCid, ItemPath(mk, d, directory, 0)))
  {
  }

  /** A media record with no image and no video makes no call at all. */
  lemma EmptyMediaNoCalls(h: Host, mk: PathBuilder, d: PostDetails, directory: Bytes, m: Media)
    requires d.media.Some? && m.imageCids == [] && m.videoCid == []
    ensures BlobRun(h, d.repo, Plan(mk, d, directory, m)) == Run([], None)
  {
    assert Plan(mk, d, directory, m) == [];
  }

  // ---------------------------------------------------------------------
  // DownloadPost

  /** The stages of DownloadPost, in order. */
  datatype Stage = Identify | Detail | Blobs | Marshal | Persist

  /** What a download ends with (what it logs): success, or the stage that
      failed and its error. */
  datatype Outcome = Completed | Aborted(stage: Stage, error: Error)

  datatype PostRun = PostRun(calls: seq<Call>, outcome: Outcome)

  /** The metadata file: the post's name with extension "json", no index. */
  function MetadataPath(mk: PathBuilder, directory: Bytes, d: PostDetails): Bytes {
    mk(directory, d.rkey, d.handle, d.text, Json, 0, MaxBytes)
  }

  /** With the code's MakeFilepath, the metadata path is the one of index 0
      with extension "json", within the same 255-byte limit. */
  lemma MetadataPathExtension(v: Variant, directory: Bytes, d: PostDetails)
    ensures var p := MetadataPath(Builder(v), directory, d);
            p == MakeFilepath(v, directory, d.rkey, d.handle, d.text, Ascii("json"), 0, 255)
            && |p| > 4 && p[|p| - 5..] == [Dot] + Ascii("json")
  {
  }

  /** The blob downloads of a post: none when it has no media record. */
  function PostBlobs(h: Host, mk: PathBuilder, d: PostDetails, directory: Bytes): Run {
    if d.media.Some? then BlobRun(h, d.repo, Plan(mk, d, directory, d.media.value)) else Run([], None)
  }

  /** The stages after the details are known: the blobs when there is a
      media record, then the metadata rendered as indented JSON and written
      to its file. Only these stages touch the blob endpoint or the file
      system. */
  function StoreRun(h: Host, codec: Codec, mk: PathBuilder, d: PostDetails, directory: Bytes): (r: PostRun)
    ensures r.outcome.Aborted? ==> r.outcome.stage != Identify && r.outcome.stage != Detail
    ensures PostBlobs(h, mk, d, directory).calls <= r.calls
    ensures r.outcome.Aborted? && r.outcome.stage == Blobs <==> PostBlobs(h, mk, d, directory).err.Some?
    ensures r.outcome.Aborted? && r.outcome.stage == Marshal <==>
              PostBlobs(h, mk, d, directory).err.None? && codec.marshalIndent(d.response).Failure?
    ensures r.outcome.Completed? || r.outcome.stage == Persist ==>
              PostBlobs(h, mk, d, directory).err.None? && codec.marshalIndent(d.response).Success?
  {
    var blobs := PostBlobs(h, mk, d, directory);
    if blobs.err.Some? then PostRun(blobs.calls, Aborted(Blobs, blobs.err.value))
    else
      var bytes := codec.marshalIndent(d.response);
      if bytes.Failure? then PostRun(blobs.calls, Aborted(Marshal, bytes.error))
      else
        var meta := MetadataPath(mk, directory, d);
        var werr := WriteFileError(h, meta, bytes.value);
        PostRun(blobs.calls + WriteFileCalls(h, meta, bytes.value),
                if werr.Some? then Aborted(Persist, werr.value) else Completed)
  }

  /** The whole workflow for the post a repository path refers to: resolve
      its URI, fetch its details, then store it; the first failing stage
      ends the run. */
  function PostRunOf(h: Host, api: Api, codec: Codec, v: Variant, repo: Bytes, path: Bytes, directory: Bytes): PostRun {
    var atUri := FetchPostIdentifierChecked(api, codec, repo, path);
    if atUri.Failure? then PostRun([], Aborted(Identify, atUri.error))
    else ResolvedRun(h, api, codec, v, atUri.value, directory)
  }

  /** The run once the post's URI is known: fetch its details, then store
      it. */
  function ResolvedRun(h: Host, api: Api, codec: Codec, v: Variant, atUri: Bytes, directory: Bytes): PostRun {
    var details := FetchPostDetails(api, codec, atUri);
    if details.Failure? then PostRun([], Aborted(Detail, details.error))
    else StoreRun(h, codec, Builder(v), details.value, directory)
  }

  /** Where the code as written does not crash: the liked record has a
      subject, and the embed of the post it refers to meets ExtractMedia's
      preconditions. */
  predicate RunDefined(api: Api, codec: Codec, repo: Bytes, path: Bytes) {
    SubjectPresent(api, codec, repo, path)
    && var atUri := FetchPostIdentifier(api, codec, repo, path);
       atUri.Success? ==> DetailsExtractable(api, codec, atUri.value)
  }

  /** DownloadPost as written, with the default client: it calls the code's
      own FetchPostIdentifier and FetchPostDetails, and wherever they are
      defined its calls and outcome are those of the intended run. */
  method DownloadPost(h: Host, api: Api, codec: Codec, v: Variant, repo: Bytes, path: Bytes, directory: Bytes)
    returns (outcome: Outcome)
    requires RunDefined(api, codec, repo, path)
    modifies h
    ensures h.trace == old(h.trace) + PostRunOf(h, api, codec, v, repo, path, directory).calls
    ensures outcome == PostRunOf(h, api, codec, v, repo, path, directory).outcome
  {
    ghost var run := PostRunOf(h, api, codec, v, repo, path, directory);
    CheckedAgrees(api, codec, repo, path);
    var atUri := FetchPostIdentifier(api, codec, repo, path);
    if atUri.Failure? {
      assert run == PostRun([], Aborted(Identify, atUri.error));
      return Aborted(Identify, atUri.error);
    }
    assert run == ResolvedRun(h, api, codec, v, atUri.value, directory);
    outcome := DownloadResolved(h, api, codec, v, atUri.value, directory);
    assert h.trace == old(h.trace) + run.calls && outcome == run.outcome;
  }

  /** The second half of DownloadPost, once the URI is known: the code's
      FetchPostDetails, then the storing stages. */
  method DownloadResolved(h: Host, api: Api, codec: Codec, v: Variant, atUri: Bytes, directory: Bytes)
    returns (outcome: Outcome)
    requires DetailsExtractable(api, codec, atUri)
    modifies h
    ensures h.trace == old(h.trace) + ResolvedRun(h, api, codec, v, atUri, directory).calls
    ensures outcome == ResolvedRun(h, api, codec, v, atUri, directory).outcome
  {
    var details := FetchPostDetailsAsWritten(api, codec, atUri);
    if details.Failure? {
      return Aborted(Detail, details.error);
    }
    outcome := StorePost(h, codec, Builder(v), details.value, directory);
  }

  /** The storing half of DownloadPost, once the details are known. */
  method StorePost(h: Host, codec: Codec, mk: PathBuilder, d: PostDetails, directory: Bytes)
    returns (outcome: Outcome)
    modifies h
    ensures h.trace == old(h.trace) + StoreRun(h, codec, mk, d, directory).calls
    ensures outcome == StoreRun(h, codec, mk, d, directory).outcome
  {
    if d.media.Some? {
      var err := DownloadBlobs(h, mk, d.media.value, d, directory);
      if err.Some? {
        return Aborted(Blobs, err.value);
      }
    }
    var filename := mk(directory, d.rkey, d.handle, d.text, Json, 0, MaxBytes);
    var bytes := codec.marshalIndent(d.response);
    if bytes.Failure? {
      return Aborted(Marshal, bytes.error);
    }
    var err := WriteFile(h, filename, bytes.value);
    if err.Some? {
      return Aborted(Persist, err.value);
    }
    return Completed;
  }

  /** Creating one of the account's own posts, whose record has no subject:
      the code is not defined there, and the intended run stops at the
      first stage with MissingSubject, before any call. */
  lemma OwnPostRun(h: Host, api: Api, codec: Codec, v: Variant, repo: Bytes, rkey: Bytes, directory: Bytes)
    requires NoSlash(rkey)
    requires var res := api.getRecord(Ascii("app.bsky.feed.post"), repo, rkey);
             res.Success? && codec.marshalJson(res.value).Success?
             && codec.decodeLike(codec.marshalJson(res.value).value) == Success(FeedLike(None))
    ensures var path := Ascii("app.bsky.feed.post") + [Slash] + rkey;
            !RunDefined(api, codec, repo, path)
            && PostRunOf(h, api, codec, v, repo, path, directory) == PostRun([], Aborted(Identify, MissingSubject(path)))
  {
    OwnPostHasNoSubject(api, codec, repo, rkey);
  }

  /** A failure to resolve the post or its details touches neither the
      blob endpoint nor the file system; a run that makes any call has
      resolved both and is the storing of those details. */
  lemma EarlyFailureTouchesNothing(h: Host, api: Api, codec: Codec, v: Variant, repo: Bytes, path: Bytes, directory: Bytes)
    ensures var r := PostRunOf(h, api, codec, v, repo, path, directory);
            r.outcome.Aborted? && (r.outcome.stage == Identify || r.outcome.stage == Detail) ==> r.calls == []
    ensures var r := PostRunOf(h, api, codec, v, repo, path, directory);
            var atUri := FetchPostIdentifierChecked(api, codec, repo, path);
            r.outcome.Completed? || (r.outcome.stage != Identify && r.outcome.stage != Detail) ==>
              atUri.Success? && FetchPostDetails(api, codec, atUri.value).Success?
              && r == StoreRun(h, codec, Builder(v), FetchPostDetails(api, codec, atUri.value).value, directory)
  {
    var atUri := FetchPostIdentifierChecked(api, codec, repo, path);
    if atUri.Success? {
      var details := FetchPostDetails(api, codec, atUri.value);
      if details.Success? {
        assert PostRunOf(h, api, codec, v, repo, path, directory) == StoreRun(h, codec, Builder(v), details.value, directory);
      }
    }
  }

  /** The metadata file is opened only once every earlier stage has
      succeeded, after every blob, and it is the last file opened. */
  lemma MetadataWrittenLast(h: Host, codec: Codec, mk: PathBuilder, d: PostDetails, directory: Bytes)
    ensures var r := StoreRun(h, codec, mk, d, directory);
            r.outcome.Aborted? && r.outcome.stage != Persist ==>
              Opened(r.calls) == Opened(PostBlobs(h, mk, d, directory).calls)
    ensures var r := StoreRun(h, codec, mk, d, directory);
            r.outcome.Completed? || r.outcome.stage == Persist ==>
              PostBlobs(h, mk, d, directory).err.None? && codec.marshalIndent(d.response).Success?
              && Opened(r.calls) == Opened(PostBlobs(h, mk, d, directory).calls) + [MetadataPath(mk, directory, d)]
  {
    var blobs := PostBlobs(h, mk, d, directory);
    if blobs.err.None? && codec.marshalIndent(d.response).Success? {
      var meta := MetadataPath(mk, directory, d);
      var bytes := codec.marshalIndent(d.response).value;
      FiltersConcat(blobs.calls, WriteFileCalls(h, meta, bytes));
      WriteFileFilters(h, meta, bytes);
    }
  }

  /** Blobs are downloaded only for a post with a media record. */
  lemma BlobsOnlyWithMedia(h: Host, mk: PathBuilder, d: PostDetails, directory: Bytes)
    requires d.media.None?
    ensures PostBlobs(h, mk, d, directory) == Run([], None)
  {
  }

  /** Storing a post keeps the file discipline. */
  lemma StoreRunDisciplined(h: Host, codec: Codec, mk: PathBuilder, d: PostDetails, directory: Bytes)
    ensures Disciplined(h, StoreRun(h, codec, mk, d, directory).calls, None)
  {
    var blobs := PostBlobs(h, mk, d, directory);
    if d.media.Some? {
      BlobRunDisciplined(h, d.repo, Plan(mk, d, directory, d.media.value));
    }
    if blobs.err.None? && codec.marshalIndent(d.response).Success? {
      var meta := MetadataPath(mk, directory, d);
      var bytes := codec.marshalIndent(d.response).value;
      WriteFileDisciplined(h, meta, bytes);
      DisciplinedConcat(h, blobs.calls, WriteFileCalls(h, meta, bytes), None);
    }
  }

  /** The whole workflow keeps the file discipline. */
  lemma PostRunDisciplined(h: Host, api: Api, codec: Codec, v: Variant, repo: Bytes, path: Bytes, directory: Bytes)
    ensures Disciplined(h, PostRunOf(h, api, codec, v, repo, path, directory).calls, None)
  {
    var atUri := FetchPostIdentifierChecked(api, codec, repo, path);
    if atUri.Success? && FetchPostDetails(api, codec, atUri.value).Success? {
      StoreRunDisciplined(h, codec, Builder(v), FetchPostDetails(api, codec, atUri.value).value, directory);
    }
  }
}
