/** The `data:` URLs of the image functions in services/geminiService.ts: the URL built from the
    model's inline image and the split of a reference image into media type and payload. The split
    accepts a narrower form than the `data:` URL of section 3 of RFC 2397: an `image/` media type,
    the `;base64` marker, and a non-empty payload. */
module DataUri {
  import opened Wrappers
  import opened Text

  /** The `inlineData` part of a request: media type and base64 payload. */
  datatype InlineImage = InlineImage(mimeType: string, data: string)

  const ImagePrefix := "data:image/"
  const Marker := ";base64,"
  /** What the image functions put before the payload the model returns. */
  const PngPrefix := "data:image/png;base64,"

  /** The URL the image functions return for an inline payload. */
  function PngDataUri(data: string): (u: string)
    ensures |u| == |PngPrefix| + |data|
    ensures StartsWith(u, PngPrefix) && u[|PngPrefix|..] == data
  {
    var u := PngPrefix + data;
    assert u[..|PngPrefix|] == PngPrefix;
    u
  }

  /** The marker at `k` can end the media type: at least one character follows `image/`, and
      the payload after the marker is not empty. */
  predicate SplitsAt(s: string, k: int) {
    |ImagePrefix| < k && k + |Marker| < |s| && OccursAt(s, Marker, k)
  }

  predicate NoLineTerminator(s: string) {
    forall i | 0 <= i < |s| :: !IsLineTerminator(s[i])
  }

  /** The last position below `k` where the marker can end the media type. */
  function LastSplitBelow(s: string, k: nat): (r: Option<nat>)
    ensures r.Some? ==> r.value < k && SplitsAt(s, r.value)
    ensures r.Some? ==> forall j | r.value < j < k :: !SplitsAt(s, j)
    ensures r.None? ==> forall j | 0 <= j < k :: !SplitsAt(s, j)
  {
    if k == 0 then None
    else if SplitsAt(s, k - 1) then Some(k - 1)
    else LastSplitBelow(s, k - 1)
  }

  /** The match of `^data:(image\/.+);base64,(.+)$`. Every character other than the fixed parts
      falls under a `.`, which matches anything but a line terminator; the greedy first group
      makes the split at the last marker that still leaves a payload. */
  function ParseDataUri(s: string): (r: Option<InlineImage>)
    ensures r.Some? <==> StartsWith(s, ImagePrefix) && NoLineTerminator(s) && exists k | 0 <= k < |s| :: SplitsAt(s, k)
    ensures forall k | SplitsAt(s, k) && (forall j | k < j < |s| :: !SplitsAt(s, j)) ::
      r.Some? ==> r.value == InlineImage(s[5..k], s[k + |Marker|..])
    ensures r.Some? ==> s == "data:" + r.value.mimeType + Marker + r.value.data
    ensures r.Some? ==> StartsWith(r.value.mimeType, "image/") && |r.value.mimeType| > 6 && r.value.data != []
  {
    if !StartsWith(s, ImagePrefix) || !NoLineTerminator(s) then None
    else match LastSplitBelow(s, |s|)
      case None => None
      case Some(k) =>
        var mime, data := s[5..k], s[k + |Marker|..];
        assert s[..5] == "data:" && s[k..k + |Marker|] == Marker;
        assert s == s[..5] + s[5..k] + s[k..k + |Marker|] + s[k + |Marker|..];
        assert mime[..6] == s[5..11] == "image/";
        Some(InlineImage(mime, data))
  }

  /** The characters a base64 payload is written with. */
  predicate IsBase64Char(c: char) {
    'A' <= c <= 'Z' || 'a' <= c <= 'z' || '0' <= c <= '9' || c == '+' || c == '/' || c == '='
  }

  /** An image the service returned, with a non-empty base64 payload, is accepted back as a
      reference image, with media type `image/png` and the same payload. */
  lemma PngRoundTrip(data: string)
    requires data != []
    requires forall i | 0 <= i < |data| :: IsBase64Char(data[i])
    ensures ParseDataUri(PngDataUri(data)) == Some(InlineImage("image/png", data))
  {
    PngShape(data);
    NoLaterSplit(data);
  }

  /** The fixed parts of a PNG URL sit where the split looks for them. */
  lemma PngShape(data: string)
    requires data != []
    requires forall i | 0 <= i < |data| :: IsBase64Char(data[i])
    ensures var s := PngDataUri(data);
      && StartsWith(s, ImagePrefix) && NoLineTerminator(s) && SplitsAt(s, 14)
      && s[5..14] == "image/png" && s[14 + |Marker|..] == data
  {
    var s := PngDataUri(data);
    assert s[..|ImagePrefix|] == ImagePrefix;
    assert s[14..14 + |Marker|] == Marker;
    forall i | 0 <= i < |s| ensures !IsLineTerminator(s[i]) {
      if i >= |PngPrefix| {
        assert s[i] == data[i - |PngPrefix|];
      }
    }
  }

  /** No marker follows the one of the prefix: the payload has no `;`. */
  lemma NoLaterSplit(data: string)
    requires forall i | 0 <= i < |data| :: IsBase64Char(data[i])
    ensures var s := PngDataUri(data);
      forall j | 14 < j < |s| :: !SplitsAt(s, j)
  {
    var s := PngDataUri(data);
    forall j | 14 < j < |s| ensures !SplitsAt(s, j) {
      if j + |Marker| < |s| {
        assert s[j..j + |Marker|][0] == s[j];
        if j >= |PngPrefix| {
          assert s[j] == data[j - |PngPrefix|];
        }
      }
    }
  }

  /** An inline payload that is empty gives a URL the split refuses. */
  lemma EmptyPayloadRefused()
    ensures ParseDataUri(PngDataUri([])) == None
  {
    var s := PngDataUri([]);
    assert s == PngPrefix;
    forall k | 0 <= k < |s| ensures !SplitsAt(s, k) {
      if |ImagePrefix| < k && k + |Marker| < |s| {
        assert k == 12 || k == 13;
        assert s[k..k + |Marker|][0] == s[k] != ';';
      }
    }
  }
}
