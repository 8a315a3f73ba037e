/** ExtractMedia (pkg/utils/extractmedia.go): folds the media shapes of a
    post's embed into one Media record. Only the shapes that carry media are
    represented: the images and video of a quote-with-media embed, and the
    top-level images and video. An embed that is only a link card or a quote
    has none of the four. */
module ExtractMedia {
  import opened Prelude
  import opened FindExpression

  /** A blob reference: its content id (as the string Ref.String() gives)
      and its MIME type. */
  datatype Blob = Blob(ref: Bytes, mimeType: Bytes)

  datatype Image = Image(image: Blob)
  datatype Images = Images(images: seq<Image>)
  datatype Video = Video(video: Blob)

  /** The media part of a quote-with-media embed. */
  datatype MediaUnion = MediaUnion(images: Option<Images>, video: Option<Video>)
  datatype RecordWithMedia = RecordWithMedia(media: MediaUnion)

  /** The embed union of a post, restricted to the media-carrying shapes. */
  datatype Embed = Embed(recordWithMedia: Option<RecordWithMedia>, images: Option<Images>, video: Option<Video>)

  /** The extracted media: the video's content id ("" when none), the image
      content ids in order, and the file extension. */
  datatype Media = Media(videoCid: Bytes, imageCids: seq<Bytes>, mediaType: Bytes)

  /** The quoted-with-media images, when there are any. */
  function QuotedImages(e: Embed): Option<Images> {
    if e.recordWithMedia.Some? then e.recordWithMedia.value.media.images else None
  }

  /** The quoted-with-media video, when there is one. */
  function QuotedVideo(e: Embed): Option<Video> {
    if e.recordWithMedia.Some? then e.recordWithMedia.value.media.video else None
  }

  /** Every image shape present holds at least one image (the code reads
      the first image's MIME type). */
  predicate WellFormed(e: Embed) {
    (QuotedImages(e).Some? ==> |QuotedImages(e).value.images| > 0)
    && (e.images.Some? ==> |e.images.value.images| > 0)
  }

  /** The embed union sets one shape at a time: a post is a quote-with-media,
      or has images, or has a video. */
  predicate Exclusive(e: Embed) {
    (e.recordWithMedia.Some? ==> e.images.None? && e.video.None?)
    && (e.images.Some? ==> e.video.None?)
  }

  /** The condition under which the code does not dereference a missing
      top-level video: its quote-with-media video branch reads the MIME type
      of the TOP-LEVEL video. */
  predicate QuotedVideoBacked(e: Embed) {
    QuotedVideo(e).Some? ==> e.video.Some?
  }

  /** The content ids of a list of images, in order. */
  function Cids(images: seq<Image>): (r: seq<Bytes>)
    ensures |r| == |images|
    ensures forall k :: 0 <= k < |images| ==> r[k] == images[k].image.ref
  {
    seq(|images|, k requires 0 <= k < |images| => images[k].image.ref)
  }

  function CidsOf(images: Option<Images>): seq<Bytes> {
    if images.Some? then Cids(images.value.images) else []
  }

  /** The MIME type an image shape contributes: its first image's. The code
      indexes the first image unguarded; an empty list contributes nothing
      here. */
  function FirstMimeType(images: Option<Images>): seq<Bytes> {
    if images.Some? && |images.value.images| > 0 then [images.value.images[0].image.mimeType] else []
  }

  /** The MIME type a video shape contributes. */
  function VideoMimeType(video: Option<Video>): seq<Bytes> {
    if video.Some? then [video.value.video.mimeType] else []
  }

  /** The MIME types the present shapes contribute, in the order the shapes
      are examined: quoted images, quoted video, images, video. */
  function MimeTypes(e: Embed): (r: seq<Bytes>)
    ensures |r| <= 4
  {
    FirstMimeType(QuotedImages(e)) + VideoMimeType(QuotedVideo(e))
    + FirstMimeType(e.images) + VideoMimeType(e.video)
  }

  /** The MIME type of the last shape present, which is the one whose type
      the code writes last. */
  function LastMimeType(e: Embed): Option<Bytes> {
    if e.video.Some? then Some(e.video.value.video.mimeType)
    else if FirstMimeType(e.images) != [] then Some(FirstMimeType(e.images)[0])
    else if QuotedVideo(e).Some? then Some(QuotedVideo(e).value.video.mimeType)
    else if FirstMimeType(QuotedImages(e)) != [] then Some(FirstMimeType(QuotedImages(e))[0])
    else None
  }

  /** The media of an embed: images of the quote followed by the top-level
      images; the top-level video's id, or else the quoted video's; and the
      extension taken from the last shape present (the part of its MIME type
      after the last '/'), "" when there is no shape. */
  function MediaOf(e: Embed): (m: Media)
    ensures |m.imageCids| == |CidsOf(QuotedImages(e))| + |CidsOf(e.images)|
    ensures NoSlash(m.mediaType)
  {
    Media(
      if e.video.Some? then e.video.value.video.ref
      else if QuotedVideo(e).Some? then QuotedVideo(e).value.video.ref
      else [],
      CidsOf(QuotedImages(e)) + CidsOf(e.images),
      if LastMimeType(e).Some? then LastSegment(LastMimeType(e).value) else [])
  }

  /** The code as written: the record is filled step by step, image ids are
      appended, and each shape overwrites the extension. Its quoted-video
      branch takes the extension from the top-level video, so it needs one;
      whenever it has one, the result is MediaOf. */
  method ExtractMedia(e: Embed) returns (m: Media)
    requires WellFormed(e)
    requires QuotedVideoBacked(e)
    ensures m == MediaOf(e)
  {
    var videoCid, imageCids, mediaType := ExtractQuoted(e);
    if e.images.Some? {
      imageCids := AppendCids(imageCids, e.images.value.images);
      mediaType := LastSegment(e.images.value.images[0].image.mimeType);
    }
    if e.video.Some? {
      videoCid := e.video.value.video.ref;
      mediaType := LastSegment(e.video.value.video.mimeType);
    }
    assert mediaType == MediaOf(e).mediaType;
    assert imageCids == MediaOf(e).imageCids;
    assert videoCid == MediaOf(e).videoCid;
    m := Media(videoCid, imageCids, mediaType);
  }

  /** The quote-with-media part of ExtractMedia as written: the quoted image
      ids and the first quoted image's extension; then the quoted video's id,
      with the extension of the top-level video. */
  method ExtractQuoted(e: Embed) returns (videoCid: Bytes, imageCids: seq<Bytes>, mediaType: Bytes)
    requires WellFormed(e)
    requires QuotedVideoBacked(e)
    ensures imageCids == CidsOf(QuotedImages(e))
    ensures videoCid == if QuotedVideo(e).Some? then QuotedVideo(e).value.video.ref else []
    ensures mediaType == if QuotedVideo(e).Some? then LastSegment(e.video.value.video.mimeType)
                         else if QuotedImages(e).Some? then LastSegment(QuotedImages(e).value.images[0].image.mimeType)
                         else []
  {
    videoCid, imageCids, mediaType := [], [], [];
    if e.recordWithMedia.Some? {
      var media := e.recordWithMedia.value.media;
      if media.images.Some? {
        imageCids := AppendCids(imageCids, media.images.value.images);
        mediaType := LastSegment(media.images.value.images[0].image.mimeType);
      }
      if media.video.Some? {
        videoCid := media.video.value.video.ref;
        mediaType := LastSegment(e.video.value.video.mimeType);
      }
    }
  }

  /** The image loop: the content id of each image is appended, in order. */
  method AppendCids(acc: seq<Bytes>, images: seq<Image>) returns (r: seq<Bytes>)
    ensures r == acc + Cids(images)
  {
    r := acc;
    for k := 0 to |images|
      invariant r == acc + Cids(images[..k])
    {
      r := r + [images[k].image.ref];
    }
    assert images[..|images|] == images;
  }

  /** With no media shape the record is empty: no video, no images, no
      extension. */
  lemma NoShapeNoMedia(e: Embed)
    requires QuotedImages(e).None? && QuotedVideo(e).None? && e.images.None? && e.video.None?
    ensures MimeTypes(e) == []
    ensures MediaOf(e) == Media([], [], [])
  {
  }

  /** The extension is that of the last shape in examination order: the
      last entry of MimeTypes. */
  lemma LastShapeWins(e: Embed)
    ensures MimeTypes(e) == [] ==> MediaOf(e).mediaType == []
    ensures MimeTypes(e) != [] ==> MediaOf(e).mediaType == LastSegment(MimeTypes(e)[|MimeTypes(e)| - 1])
  {
    var front := FirstMimeType(QuotedImages(e)) + VideoMimeType(QuotedVideo(e));
    var types := MimeTypes(e);
    if e.video.Some? {
      assert types[|types| - 1] == e.video.value.video.mimeType;
    } else if FirstMimeType(e.images) != [] {
      assert types == front + FirstMimeType(e.images);
    } else {
      assert types == front;
    }
  }

  /** The images of a shape, none when the shape is absent. */
  function ImageList(images: Option<Images>): seq<Image> {
    if images.Some? then images.value.images else []
  }

  /** The image ids are the quote's followed by the top-level ones, each list
      in its own order, whichever shapes are present. */
  lemma ImageOrder(e: Embed, k: nat)
    ensures var quoted := ImageList(QuotedImages(e));
            var top := ImageList(e.images);
            |MediaOf(e).imageCids| == |quoted| + |top|
            && (k < |quoted| ==> MediaOf(e).imageCids[k] == quoted[k].image.ref)
            && (k < |top| ==> MediaOf(e).imageCids[|quoted| + k] == top[k].image.ref)
  {
  }

  /** The video id: the top-level video's when there is one, otherwise the
      quoted video's, otherwise empty. */
  lemma VideoChoice(e: Embed)
    ensures e.video.Some? ==> MediaOf(e).videoCid == e.video.value.video.ref
    ensures e.video.None? && QuotedVideo(e).Some? ==> MediaOf(e).videoCid == QuotedVideo(e).value.video.ref
    ensures e.video.None? && QuotedVideo(e).None? ==> MediaOf(e).videoCid == []
  {
  }

  /** A post with one "image/jpeg" image gives that image's id and the
      extension "jpeg". */
  lemma ImageExample(cid: Bytes)
    ensures var e := Embed(None, Some(Images([Image(Blob(cid, Ascii("image/jpeg")))])), None);
            MediaOf(e) == Media([], [cid], Ascii("jpeg"))
  {
    var mime := Ascii("image/jpeg");
    var images := [Image(Blob(cid, mime))];
    var e := Embed(None, Some(Images(images)), None);
    assert Cids(images) == [cid];
    assert LastMimeType(e) == Some(mime);
    assert mime == Ascii("image") + [Slash] + Ascii("jpeg");
    LastSegmentAfterSlash(Ascii("image"), Ascii("jpeg"));
  }

  /** A post with a "video/mp4" video gives the video's id and "mp4". */
  lemma VideoExample(cid: Bytes)
    ensures var e := Embed(None, None, Some(Video(Blob(cid, Ascii("video/mp4")))));
            MediaOf(e) == Media(cid, [], Ascii("mp4"))
  {
    assert Ascii("video/mp4") == Ascii("video") + [Slash] + Ascii("mp4");
    LastSegmentAfterSlash(Ascii("video"), Ascii("mp4"));
  }

  /** A real quote-with-video post never has a top-level video as well, so
      the code as written cannot extract its media (it dereferences the
      missing top-level video), while MediaOf gives the quoted video's id
      and its own extension. */
  lemma QuotedVideoUnbacked(e: Embed)
    requires Exclusive(e) && QuotedVideo(e).Some?
    ensures !QuotedVideoBacked(e)
    ensures MediaOf(e).videoCid == QuotedVideo(e).value.video.ref
    ensures MediaOf(e).mediaType == LastSegment(QuotedVideo(e).value.video.mimeType)
  {
  }
}
