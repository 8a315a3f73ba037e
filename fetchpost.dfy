/** The resolution chain of pkg/core/fetchpost.go: from a repository path
    to the URI of the post it refers to (FetchPostIdentifier), and from that
    URI to the details the download needs (FetchPostDetails). The remote
    calls (after their retries) and the JSON encoders are oracles. */
module FetchPost {
  import opened Prelude
  import opened FindExpression
  import opened ExtractMedia
  import RepoCommit

  /** A strong reference to another record: its URI and content id. */
  datatype StrongRef = StrongRef(uri: Bytes, cid: Bytes)

  /** A record decoded as a like: only its subject matters here, and it is
      absent when the record has none (a post, a block, ...). */
  datatype FeedLike = FeedLike(subject: Option<StrongRef>)

  /** A record decoded as a post: its text and embed, and every other field
      (reply, facets, langs, labels, tags, creation time) as one opaque
      value that decoding fills and the indented rendering reads. */
  datatype FeedPost = FeedPost(text: Bytes, embed: Option<Embed>, rest: Bytes)

  datatype Author = Author(did: Bytes, handle: Bytes)

  /** One post view returned by getPosts; `record` is its raw record value. */
  datatype PostView = PostView(uri: Bytes, author: Author, record: Bytes)

  /** The remote calls: getRecord(collection, repo, rkey) gives the raw
      record value, getPosts(uri) the post views. */
  datatype Api = Api(getRecord: (Bytes, Bytes, Bytes) -> Result<Bytes>,
                     getPosts: Bytes -> Result<seq<PostView>>)

  /** The encoders: a record value to JSON, JSON to a like or a post, and a
      post to indented JSON. */
  datatype Codec = Codec(marshalJson: Bytes -> Result<Bytes>,
                         decodeLike: Bytes -> Result<FeedLike>,
                         decodePost: Bytes -> Result<FeedPost>,
                         marshalIndent: FeedPost -> Result<Bytes>)

  /** What the download needs to know about a post. */
  datatype PostDetails = PostDetails(handle: Bytes, text: Bytes, repo: Bytes, response: FeedPost,
                                     rkey: Bytes, media: Option<Media>)

  /** The record at a path, decoded as a like: fetched with the path's first
      segment as collection and its last as rkey, then marshalled and
      decoded; the first error wins. */
  function DecodedLike(api: Api, codec: Codec, repo: Bytes, path: Bytes): Result<FeedLike> {
    var res := api.getRecord(FirstSegment(path), repo, LastSegment(path));
    if res.Failure? then Failure(res.error)
    else
      var bytes := codec.marshalJson(res.value);
      if bytes.Failure? then Failure(bytes.error)
      else codec.decodeLike(bytes.value)
  }

  /** The code dereferences the decoded subject without a check. */
  predicate SubjectPresent(api: Api, codec: Codec, repo: Bytes, path: Bytes) {
    var like := DecodedLike(api, codec, repo, path);
    like.Success? ==> like.value.subject.Some?
  }

  /** FetchPostIdentifier as written: defined only where the decoded record
      has a subject. */
  function FetchPostIdentifier(api: Api, codec: Codec, repo: Bytes, path: Bytes): (r: Result<Bytes>)
    requires SubjectPresent(api, codec, repo, path)
    ensures r.Failure? <==> DecodedLike(api, codec, repo, path).Failure?
  {
    var like := DecodedLike(api, codec, repo, path);
    if like.Failure? then Failure(like.error) else Success(like.value.subject.value.uri)
  }

  /** FetchPostIdentifier with the missing subject reported as an error. */
  function FetchPostIdentifierChecked(api: Api, codec: Codec, repo: Bytes, path: Bytes): (r: Result<Bytes>)
    ensures var like := DecodedLike(api, codec, repo, path);
            r.Success? <==> like.Success? && like.value.subject.Some?
    ensures var like := DecodedLike(api, codec, repo, path);
            r.Success? ==> r.value == like.value.subject.value.uri
  {
    var like := DecodedLike(api, codec, repo, path);
    if like.Failure? then Failure(like.error)
    else if like.value.subject.None? then Failure(MissingSubject(path))
    else Success(like.value.subject.value.uri)
  }

  /** The checked identifier agrees with the code wherever the code is
      defined. */
  lemma CheckedAgrees(api: Api, codec: Codec, repo: Bytes, path: Bytes)
    requires SubjectPresent(api, codec, repo, path)
    ensures FetchPostIdentifierChecked(api, codec, repo, path) == FetchPostIdentifier(api, codec, repo, path)
  {
  }

  /** A "<collection>/<rkey>" path fetches exactly (collection, repo, rkey),
      and every error of the chain is returned as it is. */
  lemma IdentifierLookup(api: Api, codec: Codec, repo: Bytes, collection: Bytes, rkey: Bytes)
    requires NoSlash(collection) && NoSlash(rkey)
    ensures var path := collection + [Slash] + rkey;
            var res := api.getRecord(collection, repo, rkey);
            (res.Failure? ==> FetchPostIdentifierChecked(api, codec, repo, path) == Failure(res.error))
            && (res.Success? && codec.marshalJson(res.value).Failure? ==>
                  FetchPostIdentifierChecked(api, codec, repo, path) == Failure(codec.marshalJson(res.value).error))
            && (res.Success? && codec.marshalJson(res.value).Success?
                && codec.decodeLike(codec.marshalJson(res.value).value).Failure? ==>
                  FetchPostIdentifierChecked(api, codec, repo, path)
                  == Failure(codec.decodeLike(codec.marshalJson(res.value).value).error))
  {
    PathSplitRoundTrip(collection, rkey);
  }

  /** Creating one of the account's own posts is dispatched by the commit
      filter, and its record decoded as a like has no subject: the code's
      precondition fails there (it dereferences the missing subject), while
      the checked version reports MissingSubject. */
  lemma OwnPostHasNoSubject(api: Api, codec: Codec, repo: Bytes, rkey: Bytes)
    requires NoSlash(rkey)
    requires var res := api.getRecord(Ascii("app.bsky.feed.post"), repo, rkey);
             res.Success? && codec.marshalJson(res.value).Success?
             && codec.decodeLike(codec.marshalJson(res.value).value) == Success(FeedLike(None))
    ensures var path := Ascii("app.bsky.feed.post") + [Slash] + rkey;
            RepoCommit.Selected(RepoCommit.Op(RepoCommit.Create, path))
            && !SubjectPresent(api, codec, repo, path)
            && FetchPostIdentifierChecked(api, codec, repo, path) == Failure(MissingSubject(path))
  {
    RepoCommit.OwnPostSelected(rkey);
    var collection := Ascii("app.bsky.feed.post");
    assert NoSlash(collection) by {
      forall k | 0 <= k < |collection| ensures collection[k] != Slash {
        assert collection[k] as int == "app.bsky.feed.post"[k] as int;
      }
    }
    PathSplitRoundTrip(collection, rkey);
  }

  /** The details of one post view: its record decoded as a post, and the
      media of its embed when it has one. Each failure is wrapped with the
      URI. */
  function DetailsOfView(codec: Codec, atUri: Bytes, post: PostView): (r: Result<PostDetails>)
    ensures r.Success? <==>
              codec.marshalJson(post.record).Success?
              && codec.decodePost(codec.marshalJson(post.record).value).Success?
    ensures r.Success? ==>
              codec.decodePost(codec.marshalJson(post.record).value) == Success(r.value.response)
              && r.value.handle == post.author.handle && r.value.repo == post.author.did
              && r.value.rkey == LastSegment(post.uri)
              && r.value.text == r.value.response.text
              && r.value.media == (if r.value.response.embed.Some?
                                   then Some(MediaOf(r.value.response.embed.value)) else None)
  {
    var bytes := codec.marshalJson(post.record);
    if bytes.Failure? then Failure(MarshalFailed(bytes.error, atUri))
    else
      var record := codec.decodePost(bytes.value);
      if record.Failure? then Failure(UnmarshalFailed(record.error, atUri))
      else
        Success(PostDetails(
          post.author.handle, record.value.text, post.author.did, record.value, LastSegment(post.uri),
          if record.value.embed.Some? then Some(MediaOf(record.value.embed.value)) else None))
  }

  /** FetchPostDetails: the details of the first post view getPosts returns. */
  function FetchPostDetails(api: Api, codec: Codec, atUri: Bytes): (r: Result<PostDetails>)
    ensures r.Success? ==> api.getPosts(atUri).Success? && |api.getPosts(atUri).value| >= 1
    ensures r.Success? ==> var post := api.getPosts(atUri).value[0];
              codec.marshalJson(post.record).Success?
              && codec.decodePost(codec.marshalJson(post.record).value) == Success(r.value.response)
              && r.value.handle == post.author.handle && r.value.repo == post.author.did
              && r.value.rkey == LastSegment(post.uri)
              && r.value.text == r.value.response.text
              && r.value.media == (if r.value.response.embed.Some?
                                   then Some(MediaOf(r.value.response.embed.value)) else None)
  {
    var res := api.getPosts(atUri);
    if res.Failure? then Failure(PostMissing(res.error, atUri))
    else if |res.value| < 1 then Failure(NoSuchPost(atUri))
    else DetailsOfView(codec, atUri, res.value[0])
  }

  /** The failures of FetchPostDetails, stage by stage. */
  lemma DetailsFailures(api: Api, codec: Codec, atUri: Bytes)
    ensures api.getPosts(atUri).Failure? ==>
              FetchPostDetails(api, codec, atUri) == Failure(PostMissing(api.getPosts(atUri).error, atUri))
    ensures api.getPosts(atUri) == Success([]) ==>
              FetchPostDetails(api, codec, atUri) == Failure(NoSuchPost(atUri))
    ensures api.getPosts(atUri).Success? && |api.getPosts(atUri).value| >= 1
            && codec.marshalJson(api.getPosts(atUri).value[0].record).Failure? ==>
              FetchPostDetails(api, codec, atUri)
              == Failure(MarshalFailed(codec.marshalJson(api.getPosts(atUri).value[0].record).error, atUri))
    ensures api.getPosts(atUri).Success? && |api.getPosts(atUri).value| >= 1
            && codec.marshalJson(api.getPosts(atUri).value[0].record).Success?
            && codec.decodePost(codec.marshalJson(api.getPosts(atUri).value[0].record).value).Failure? ==>
              FetchPostDetails(api, codec, atUri)
              == Failure(UnmarshalFailed(
                   codec.decodePost(codec.marshalJson(api.getPosts(atUri).value[0].record).value).error, atUri))
    ensures api.getPosts(atUri).Success? && |api.getPosts(atUri).value| >= 1
            && codec.marshalJson(api.getPosts(atUri).value[0].record).Success?
            && codec.decodePost(codec.marshalJson(api.getPosts(atUri).value[0].record).value).Success? ==>
              FetchPostDetails(api, codec, atUri).Success?
  {
  }

  /** The code hands the decoded embed of a view to ExtractMedia unguarded:
      it must meet that method's preconditions. */
  predicate ViewExtractable(codec: Codec, post: PostView) {
    var bytes := codec.marshalJson(post.record);
    bytes.Success? && codec.decodePost(bytes.value).Success? && codec.decodePost(bytes.value).value.embed.Some? ==>
      WellFormed(codec.decodePost(bytes.value).value.embed.value)
      && QuotedVideoBacked(codec.decodePost(bytes.value).value.embed.value)
  }

  /** ViewExtractable for the first view getPosts returns, if any. */
  predicate DetailsExtractable(api: Api, codec: Codec, atUri: Bytes) {
    var res := api.getPosts(atUri);
    res.Success? && |res.value| >= 1 ==> ViewExtractable(codec, res.value[0])
  }

  /** FetchPostDetails as written, step by step with ExtractMedia as the
      code calls it: wherever the code is defined it computes the details
      of the corrected function. */
  method FetchPostDetailsAsWritten(api: Api, codec: Codec, atUri: Bytes) returns (r: Result<PostDetails>)
    requires DetailsExtractable(api, codec, atUri)
    ensures r == FetchPostDetails(api, codec, atUri)
  {
    var res := api.getPosts(atUri);
    if res.Failure? {
      return Failure(PostMissing(res.error, atUri));
    }
    if |res.value| < 1 {
      return Failure(NoSuchPost(atUri));
    }
    var post := res.value[0];
    var rkey := LastSegment(post.uri);
    var bytes := codec.marshalJson(post.record);
    if bytes.Failure? {
      return Failure(MarshalFailed(bytes.error, atUri));
    }
    var record := codec.decodePost(bytes.value);
    if record.Failure? {
      return Failure(UnmarshalFailed(record.error, atUri));
    }
    var media := None;
    if record.value.embed.Some? {
      var m := ExtractMedia.ExtractMedia(record.value.embed.value);
      media := Some(m);
    }
    r := Success(PostDetails(post.author.handle, record.value.text, post.author.did, record.value, rkey, media));
  }

  /** Only the first post view counts: views after it change nothing. */
  lemma OnlyFirstPostUsed(api1: Api, api2: Api, codec: Codec, atUri: Bytes)
    requires api1.getPosts(atUri).Success? && api2.getPosts(atUri).Success?
    requires |api1.getPosts(atUri).value| >= 1 && |api2.getPosts(atUri).value| >= 1
    requires api1.getPosts(atUri).value[0] == api2.getPosts(atUri).value[0]
    ensures FetchPostDetails(api1, codec, atUri) == FetchPostDetails(api2, codec, atUri)
  {
  }

  /** A view at "at://example/repo/rkey" gives the rkey "rkey". */
  lemma RkeyExample()
    ensures LastSegment(Ascii("at://example/repo/rkey")) == Ascii("rkey")
  {
    assert Ascii("at://example/repo/rkey") == Ascii("at://example/repo") + [Slash] + Ascii("rkey");
    LastSegmentAfterSlash(Ascii("at://example/repo"), Ascii("rkey"));
  }
}
