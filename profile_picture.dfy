/**
  The profile-picture source resolver: it classifies the raw `ProfilePicture`
  value of a contact as a remote image reference, an inline base64 payload
  (wrapped into a data URI whose MIME type is sniffed from the payload's
  first characters) or nothing to show.
 */
module ProfilePicture {
  import opened Wrappers

  /** A non-URL value must be strictly longer than this to count as an inline payload. */
  const InlineThreshold: nat := 100

  /** Base64 of the PNG file signature, and of the JPEG one. */
  const PngSignature: string := "iVBOR"
  const JpegSignature: string := "/9j"

  const PngMime: string := "image/png"
  const JpegMime: string := "image/jpeg"

  /** The three outcomes of the classification. */
  datatype Source = RemoteUrl | InlineImage(mime: string) | NoImage

  /** `/^https?:\/\//`: a case-sensitive `http://` or `https://` prefix. */
  predicate IsRemoteUrl(pic: string) {
    "http://" <= pic || "https://" <= pic
  }

  /**
    The MIME type of an inline payload: JPEG by default, PNG for the PNG
    signature, then JPEG again for the JPEG signature.
   */
  function SniffMime(pic: string): (mime: string)
    ensures mime == PngMime <==> PngSignature <= pic
    ensures mime == PngMime || mime == JpegMime
  {
    var mime0 := JpegMime;
    var mime1 := if PngSignature <= pic then PngMime else mime0;
    // the two signatures start with different characters
    assert JpegSignature <= pic ==> pic[0] == '/' && !(PngSignature <= pic);
    assert JpegMime[6] != PngMime[6];
    if JpegSignature <= pic then JpegMime else mime1
  }

  /** `data:<mime>;base64,<payload>` */
  function DataUri(mime: string, payload: string): string {
    "data:" + mime + ";base64," + payload
  }

  /** The branches of `getProfilePictureSrc`, in the order the source tests them. */
  function Classify(pic: string): (s: Source)
    ensures s.RemoteUrl? <==> IsRemoteUrl(pic)
    ensures s.InlineImage? <==> !IsRemoteUrl(pic) && |pic| > InlineThreshold
    ensures s.NoImage? <==> pic == "" || (!IsRemoteUrl(pic) && |pic| <= InlineThreshold)
    ensures s.InlineImage? ==> s.mime == SniffMime(pic)
  {
    if pic == "" then NoImage
    else if IsRemoteUrl(pic) then RemoteUrl
    else if |pic| > InlineThreshold then InlineImage(SniffMime(pic))
    else NoImage
  }

  /** What goes into the image's `src`: the value itself, a data URI, or null. */
  function ProfilePictureSrc(pic: string): (r: Option<string>)
    ensures r.Some? ==> pic != ""
  {
    match Classify(pic)
    case RemoteUrl => Some(pic)
    case InlineImage(mime) => Some(DataUri(mime, pic))
    case NoImage => None
  }

  /** Null exactly for the empty value and for a short value that is not a URL. */
  lemma NoSourceIff(pic: string)
    ensures ProfilePictureSrc(pic) == None
        <==> pic == "" || (!IsRemoteUrl(pic) && |pic| <= InlineThreshold)
  {
  }

  /**
    The value is passed through unchanged exactly when it is an http(s) URL,
    whatever its length: the URL test comes before the length test.
   */
  lemma UnchangedIffRemoteUrl(pic: string)
    ensures ProfilePictureSrc(pic) == Some(pic) <==> IsRemoteUrl(pic)
  {
  }

  /**
    A non-empty, non-URL value longer than the threshold becomes a data URI
    whose payload is the value itself and whose MIME type is PNG exactly when
    the value starts with the PNG signature, and JPEG otherwise.
   */
  lemma InlinePayload(pic: string)
    requires !IsRemoteUrl(pic) && |pic| > InlineThreshold
    ensures PngSignature <= pic ==> ProfilePictureSrc(pic) == Some(DataUri(PngMime, pic))
    ensures !(PngSignature <= pic) ==> ProfilePictureSrc(pic) == Some(DataUri(JpegMime, pic))
  {
  }

  /**
    A data URI produced by the resolver can be taken apart again: it ends with
    the original value, and it carries the PNG header exactly when the value
    starts with the PNG signature (otherwise the JPEG header).
   */
  lemma DataUriShape(pic: string, uri: string)
    requires ProfilePictureSrc(pic) == Some(uri) && uri != pic
    ensures |pic| < |uri| && uri[|uri| - |pic|..] == pic
    ensures "data:image/png;base64," <= uri <==> PngSignature <= pic
    ensures !(PngSignature <= pic) ==> "data:image/jpeg;base64," <= uri
  {
    assert Classify(pic).InlineImage?;
    assert uri == DataUri(SniffMime(pic), pic);
    DataUriHeader(SniffMime(pic), pic);
  }

  /** The header of a data URI names its MIME type, and the payload follows it. */
  lemma DataUriHeader(mime: string, payload: string)
    requires mime == PngMime || mime == JpegMime
    ensures |payload| < |DataUri(mime, payload)|
    ensures DataUri(mime, payload)[|DataUri(mime, payload)| - |payload|..] == payload
    ensures "data:image/png;base64," <= DataUri(mime, payload) <==> mime == PngMime
    ensures mime == JpegMime ==> "data:image/jpeg;base64," <= DataUri(mime, payload)
  {
    var uri := DataUri(mime, payload);
    var header := "data:" + mime + ";base64,";
    assert uri == header + payload;
    assert uri[..|header|] == header;
    if mime == PngMime {
      assert header == "data:image/png;base64,";
    } else {
      assert header == "data:image/jpeg;base64,";
      assert uri[11] == 'j';
    }
  }

  /**
    The worked cases: empty, a short URL, a short non-URL, the 100/101
    boundary, 150-character PNG and JPEG payloads and a URL longer than the threshold.
   */
  lemma Boundaries()
    ensures ProfilePictureSrc("") == None
    ensures ProfilePictureSrc("http://x/y.png") == Some("http://x/y.png")
    ensures ProfilePictureSrc("short") == None
    ensures ProfilePictureSrc(seq(100, i => 'A')) == None
    ensures ProfilePictureSrc(seq(101, i => 'A')) == Some(DataUri(JpegMime, seq(101, i => 'A')))
    ensures ProfilePictureSrc(PngSignature + seq(145, i => 'A'))
         == Some(DataUri(PngMime, PngSignature + seq(145, i => 'A')))
    ensures ProfilePictureSrc(JpegSignature + seq(147, i => 'A'))
         == Some(DataUri(JpegMime, JpegSignature + seq(147, i => 'A')))
    ensures ProfilePictureSrc("https://" + seq(120, i => 'a'))
         == Some("https://" + seq(120, i => 'a'))
  {
    assert !IsRemoteUrl("short") by { assert "short"[0] != 'h'; }
    var s100 := seq(100, i => 'A');
    assert !IsRemoteUrl(s100) by { assert s100[0] != 'h'; }
    var s101 := seq(101, i => 'A');
    assert !IsRemoteUrl(s101) by { assert s101[0] != 'h'; }
    assert !(PngSignature <= s101) by { assert s101[0] != 'i'; }
    var png := PngSignature + seq(145, i => 'A');
    assert !IsRemoteUrl(png) by { assert png[0] != 'h'; }
    assert PngSignature <= png;
    var jpeg := JpegSignature + seq(147, i => 'A');
    assert !IsRemoteUrl(jpeg) by { assert jpeg[0] != 'h'; }
    assert JpegSignature <= jpeg;
    var url := "https://" + seq(120, i => 'a');
    assert "https://" <= url;
  }
}
