/** Decoding an inline base64 image: data-URI prefix stripping, base64 decoding, loading,
    and conversion to the engine's BGR channel order. */
module ImageUtils {
  import opened Results
  import opened Failures
  import opened Values
  import opened Images
  import opened Collaborators

  /** `sep.join(parts)` */
  function Join(parts: seq<string>, sep: char): string
    requires |parts| >= 1
  {
    if |parts| == 1 then parts[0] else parts[0] + [sep] + Join(parts[1..], sep)
  }

  /** `s.split(sep)`: the pieces between separators, empty ones included. */
  function Split(s: string, sep: char): (parts: seq<string>)
    ensures |parts| >= 1
    ensures forall k :: 0 <= k < |parts| ==> sep !in parts[k]
    ensures Join(parts, sep) == s
  {
    if |s| == 0 then [""]
    else
      var rest := Split(s[1..], sep);
      if s[0] == sep then
        assert ([""] + rest)[1..] == rest;
        [""] + rest
      else
        var parts := [[s[0]] + rest[0]] + rest[1..];
        assert |rest| > 1 ==> parts[1..] == rest[1..];
        assert s == [s[0]] + s[1..];
        parts
  }

  /** `s.split(',')[1] if ',' in s else s`: the data-URI prefix is dropped, and so is
      everything from a second comma on. */
  function StripDataUriPrefix(s: string): (r: string)
    ensures ',' !in r
    ensures ',' !in s ==> r == s
  {
    if ',' in s then
      var parts := Split(s, ',');
      assert |parts| >= 2;
      parts[1]
    else s
  }

  /** The kept text is exactly the segment strictly between the first and the second comma. */
  lemma StripKeepsSecondSegment(s: string)
    requires ',' in s
    ensures exists head: string, tail: string ::
      && s == head + [','] + StripDataUriPrefix(s) + tail
      && ',' !in head
      && (tail == [] || tail[0] == ',')
  {
    var parts := Split(s, ',');
    var r := StripDataUriPrefix(s);
    assert r == parts[1];
    assert s == parts[0] + [','] + Join(parts[1..], ',');
    var tail: string;
    if |parts| == 2 {
      tail := [];
      assert Join(parts[1..], ',') == r + tail;
    } else {
      tail := [','] + Join(parts[2..], ',');
      assert parts[1..][1..] == parts[2..];
      assert Join(parts[1..], ',') == r + tail;
    }
    var head := parts[0];
    assert s == head + [','] + StripDataUriPrefix(s) + tail && ',' !in head && (tail == [] || tail[0] == ',');
  }

  /** Stripping is idempotent: its result has no comma left to strip at. */
  lemma StripIdempotent(s: string)
    ensures StripDataUriPrefix(StripDataUriPrefix(s)) == StripDataUriPrefix(s)
  {
  }

  /** `decode_base64_image`: every failure of decoding or loading becomes a 400
      "Invalid image format" carrying the original error. */
  function DecodeBase64Image(rt: Runtime, s: string): (r: Result<Image, Error>)
    ensures r.Failure? ==> r.error.Http? && r.error.status == 400
    ensures r.Failure? ==> r.error.detail.Wrapped? && r.error.detail.stage == InvalidImageFormat
    ensures var data := rt.b64decode(StripDataUriPrefix(s));
      data.Failure? ==> r == Failure(Http(400, Wrapped(InvalidImageFormat, data.error)))
    ensures var data := rt.b64decode(StripDataUriPrefix(s));
      data.Success? && rt.loadRgb(data.value).Failure? ==>
        r == Failure(Http(400, Wrapped(InvalidImageFormat, rt.loadRgb(data.value).error)))
    ensures r.Success? <==>
      var data := rt.b64decode(StripDataUriPrefix(s));
      data.Success? && rt.loadRgb(data.value).Success?
    ensures r.Success? ==>
      var loaded := rt.loadRgb(rt.b64decode(StripDataUriPrefix(s)).value).value;
      && r.value.height == loaded.height && r.value.width == loaded.width
      && |r.value.pixels| == |loaded.pixels|
      && SwapRedBlue(r.value) == loaded
  {
    match rt.b64decode(StripDataUriPrefix(s))
    case Failure(e) => Failure(Rethrow(400, InvalidImageFormat, e))
    case Success(data) =>
      match rt.loadRgb(data)
      case Failure(e) => Failure(Rethrow(400, InvalidImageFormat, e))
      case Success(rgb) =>
        SwapRedBlueInvolution(rgb);
        Success(SwapRedBlue(rgb))
  }
}
