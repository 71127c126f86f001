/**
 * Splitting an RGBA8 image into three grey images, one per colour channel
 * (src/utils/image/channelSplitter.js). Decoding the source image, drawing it
 * on a canvas and encoding the results are outside the model: the drawn
 * canvas's pixel bytes are an input and the PNG encoder is a parameter.
 */
module ChannelSplitter {
  import opened Wrappers
  import opened Bytes

  /** The byte at position `j` of the channel-`c` image of `s`: the pixel's channel `c`, or 255 for alpha. */
  function ChannelAt(s: seq<byte>, c: nat, j: nat): byte
    requires c < 3 && |s| % 4 == 0 && j < |s|
  {
    if j % 4 == 3 then 255 else s[j - j % 4 + c]
  }

  /** The image `createChannelImage` draws for channel `c`. */
  function ChannelImage(s: seq<byte>, c: nat): (r: seq<byte>)
    requires c < 3 && |s| % 4 == 0
    ensures |r| == |s|
  {
    seq(|s|, j requires 0 <= j < |s| => ChannelAt(s, c, j))
  }

  /** Every pixel of `s` is grey (R = G = B) and fully opaque. */
  predicate GreyOpaque(s: seq<byte>)
    requires |s| % 4 == 0
  {
    forall i :: 0 <= i < |s| / 4 ==> s[4 * i] == s[4 * i + 1] == s[4 * i + 2] && s[4 * i + 3] == 255
  }

  /**
   * The pixel loop, for every pixel: red, green and blue all take the
   * source pixel's channel `c`, and alpha is 255; so the image is grey and
   * opaque.
   */
  lemma {:induction false} ChannelImagePixels(s: seq<byte>, c: nat)
    requires c < 3 && |s| % 4 == 0
    ensures var r := ChannelImage(s, c);
      (forall i :: 0 <= i < |s| / 4 ==>
        r[4 * i] == s[4 * i + c] && r[4 * i + 1] == s[4 * i + c] && r[4 * i + 2] == s[4 * i + c] && r[4 * i + 3] == 255)
      && GreyOpaque(r)
  {
    var r := ChannelImage(s, c);
    forall i | 0 <= i < |s| / 4
      ensures r[4 * i] == s[4 * i + c] && r[4 * i + 1] == s[4 * i + c] && r[4 * i + 2] == s[4 * i + c] && r[4 * i + 3] == 255
    {
      PixelOffsets(i, |s|);
    }
  }

  lemma {:induction false} PixelOffsets(i: nat, n: nat)
    requires n % 4 == 0 && i < n / 4
    ensures 4 * i + 3 < n
    ensures (4 * i) % 4 == 0 && (4 * i + 1) % 4 == 1 && (4 * i + 2) % 4 == 2 && (4 * i + 3) % 4 == 3
  {
  }

  /** The four bytes of pixel `p`: channel `c` three times, then 255. */
  lemma {:induction false} ChannelAtPixel(s: seq<byte>, c: nat, p: nat)
    requires c < 3 && |s| % 4 == 0 && p < |s| / 4
    ensures 4 * p + 3 < |s|
    ensures ChannelAt(s, c, 4 * p) == s[4 * p + c] && ChannelAt(s, c, 4 * p + 1) == s[4 * p + c]
    ensures ChannelAt(s, c, 4 * p + 2) == s[4 * p + c] && ChannelAt(s, c, 4 * p + 3) == 255
  {
    PixelOffsets(p, |s|);
  }

  /** A grey opaque image is its own channel image, whichever channel is taken. */
  lemma {:induction false} ChannelImageOfGrey(s: seq<byte>, c: nat)
    requires c < 3 && |s| % 4 == 0 && GreyOpaque(s)
    ensures ChannelImage(s, c) == s
  {
    var r := ChannelImage(s, c);
    forall j | 0 <= j < |s| ensures r[j] == s[j] {
      var i := j / 4;
      assert j == 4 * i + j % 4;
      PixelOffsets(i, |s|);
    }
  }

  /** Splitting a split image again changes nothing, for any channel. */
  lemma {:induction false} ChannelImageIdempotent(s: seq<byte>, c: nat, c': nat)
    requires c < 3 && c' < 3 && |s| % 4 == 0
    ensures ChannelImage(ChannelImage(s, c), c') == ChannelImage(s, c)
  {
    ChannelImagePixels(s, c);
    ChannelImageOfGrey(ChannelImage(s, c), c');
  }

  /** The pixel (10, 20, 30, 255) becomes (10, 10, 10, 255), (20, 20, 20, 255) and (30, 30, 30, 255). */
  lemma {:induction false} ChannelImageExample()
    ensures ChannelImage([10, 20, 30, 255], 0) == [10, 10, 10, 255]
    ensures ChannelImage([10, 20, 30, 255], 1) == [20, 20, 20, 255]
    ensures ChannelImage([10, 20, 30, 255], 2) == [30, 30, 30, 255]
  {
    var s: seq<byte> := [10, 20, 30, 255];
    ChannelImagePixels(s, 0);
    ChannelImagePixels(s, 1);
    ChannelImagePixels(s, 2);
  }

  /**
   * The pixel loop of `createChannelImage`, over a fresh image buffer of the
   * source's size; the source is only read.
   */
  method CreateChannelImage(source: array<byte>, channel: nat) returns (target: array<byte>)
    requires channel < 3 && source.Length % 4 == 0
    ensures fresh(target) && target[..] == ChannelImage(source[..], channel)
    ensures source[..] == old(source[..])
  {
    target := new byte[source.Length](_ => 0);
    ghost var src, pixels := source[..], source.Length / 4;
    var i := 0;
    ghost var p := 0;
    while i < source.Length
      invariant i == 4 * p && p <= pixels && source[..] == src
      invariant forall j :: 0 <= j < i ==> target[j] == ChannelAt(src, channel, j)
      modifies target
    {
      ChannelAtPixel(src, channel, p);
      var value := source[i + channel];
      target[i] := value;
      target[i + 1] := value;
      target[i + 2] := value;
      target[i + 3] := 255;
      i := i + 4;
      p := p + 1;
    }
    assert target[..] == ChannelImage(src, channel);
  }

  // ---------------------------------------------------------------- splitRGBChannels

  /** The decoded image's natural size. */
  datatype NaturalSize = NaturalSize(width: nat, height: nat)

  /** The caller's optional dimensions; an absent or zero field falls back. */
  datatype Dimensions = Dimensions(width: Option<nat>, height: Option<nat>)

  /** The provided value when it is present and non-zero, otherwise the natural one. */
  function Fallback(provided: Option<nat>, natural: nat): (r: nat)
    ensures provided.Some? && provided.value != 0 ==> r == provided.value
    ensures provided.None? || provided.value == 0 ==> r == natural
  {
    match provided
    case None => natural
    case Some(v) => if v != 0 then v else natural
  }

  /** The width drawn at: the caller's width if given and non-zero, else the image's natural width. */
  function UsedWidth(dims: Option<Dimensions>, image: NaturalSize): (r: nat)
    ensures r == (if dims.Some? && dims.value.width.Some? && dims.value.width.value != 0
                  then dims.value.width.value else image.width)
  {
    Fallback(if dims.Some? then dims.value.width else None, image.width)
  }

  /** The height drawn at: the caller's height if given and non-zero, else the image's natural height. */
  function UsedHeight(dims: Option<Dimensions>, image: NaturalSize): (r: nat)
    ensures r == (if dims.Some? && dims.value.height.Some? && dims.value.height.value != 0
                  then dims.value.height.value else image.height)
  {
    Fallback(if dims.Some? then dims.value.height else None, image.height)
  }

  /** The three grey images' URLs: channel 0 is `red`, 1 `green`, 2 `blue`. */
  datatype ChannelUrls = ChannelUrls(red: string, green: string, blue: string)

  /**
   * Why `splitRGBChannels` rejects; the catch logs the error and rethrows it
   * unchanged. `ImageLoadError` is the image element's error event, passed
   * on as it is, with no message of its own; `IndexSizeError` is what the
   * canvas throws when asked for the pixels of a zero-width or zero-height
   * area; `BlobError` is the error raised when a channel image cannot be
   * encoded, whose message is `EncodeFailure`.
   */
  datatype SplitError = ImageLoadError | IndexSizeError | BlobError

  /** The three URLs, or the error the promise rejects with. */
  datatype SplitOutcome = Split(urls: ChannelUrls) | Rejected(reason: SplitError)

  const EncodeFailure := "Failed to create blob from canvas"

  /**
   * The outcome of `splitRGBChannels`: a load failure, a zero used width or
   * height, an encode failure of any of the three images, or the three URLs.
   * `pixels` is the canvas data drawn at the used size and `encode` the
   * canvas-to-blob-URL step, `None` for no blob.
   */
  function SplitResult(image: Option<NaturalSize>, dims: Option<Dimensions>, pixels: seq<byte>,
                       encode: seq<byte> -> Option<string>): SplitOutcome
    requires |pixels| % 4 == 0
  {
    if image.None? then Rejected(ImageLoadError)
    else if UsedWidth(dims, image.value) == 0 || UsedHeight(dims, image.value) == 0 then Rejected(IndexSizeError)
    else
      var red := encode(ChannelImage(pixels, 0));
      var green := encode(ChannelImage(pixels, 1));
      var blue := encode(ChannelImage(pixels, 2));
      if red.None? || green.None? || blue.None? then Rejected(BlobError)
      else Split(ChannelUrls(red.value, green.value, blue.value))
  }

  /** The first stage: the image element fires its load event. */
  predicate Loads(image: Option<NaturalSize>) {
    image.Some?
  }

  /** The second stage: the canvas drawn at the used size has pixels to read. */
  predicate SizeNonEmpty(image: Option<NaturalSize>, dims: Option<Dimensions>)
    requires Loads(image)
  {
    UsedWidth(dims, image.value) != 0 && UsedHeight(dims, image.value) != 0
  }

  /** The third stage: each of the three channel images encodes to a blob URL. */
  predicate EncodesAll(pixels: seq<byte>, encode: seq<byte> -> Option<string>)
    requires |pixels| % 4 == 0
  {
    forall c :: 0 <= c < 3 ==> encode(ChannelImage(pixels, c)).Some?
  }

  /**
   * The split succeeds iff all three stages succeed; no partial result is
   * ever returned, each URL is the encoded image of its own channel, and a
   * rejection names exactly the first stage that failed.
   */
  lemma {:induction false} SplitResultSpec(image: Option<NaturalSize>, dims: Option<Dimensions>, pixels: seq<byte>,
                                           encode: seq<byte> -> Option<string>)
    requires |pixels| % 4 == 0
    ensures var r := SplitResult(image, dims, pixels, encode);
      && (r.Split? <==> Loads(image) && SizeNonEmpty(image, dims) && EncodesAll(pixels, encode))
      && (r.Split? ==> r.urls == ChannelUrls(encode(ChannelImage(pixels, 0)).value,
                                             encode(ChannelImage(pixels, 1)).value,
                                             encode(ChannelImage(pixels, 2)).value))
      && (r == Rejected(ImageLoadError) <==> !Loads(image))
      && (r == Rejected(IndexSizeError) <==> Loads(image) && !SizeNonEmpty(image, dims))
      && (r == Rejected(BlobError) <==> Loads(image) && SizeNonEmpty(image, dims) && !EncodesAll(pixels, encode))
  {
    if Loads(image) && SizeNonEmpty(image, dims) && !EncodesAll(pixels, encode) {
      var c :| 0 <= c < 3 && encode(ChannelImage(pixels, c)).None?;
      assert c == 0 || c == 1 || c == 2;
    }
  }

  /**
   * `splitRGBChannels`, from the loaded image (or `None` for a load failure)
   * and the canvas data drawn at the used size.
   */
  method SplitRGBChannels(image: Option<NaturalSize>, dims: Option<Dimensions>, pixels: array<byte>,
                          encode: seq<byte> -> Option<string>)
    returns (r: SplitOutcome)
    requires image.Some? ==> pixels.Length == UsedWidth(dims, image.value) * UsedHeight(dims, image.value) * 4
    requires pixels.Length % 4 == 0
    ensures r == SplitResult(image, dims, pixels[..], encode)
  {
    if image.None? {
      return Rejected(ImageLoadError);
    }
    var width := UsedWidth(dims, image.value);
    var height := UsedHeight(dims, image.value);
    if width == 0 || height == 0 {
      return Rejected(IndexSizeError);
    }
    var red := CreateChannelImage(pixels, 0);
    var green := CreateChannelImage(pixels, 1);
    var blue := CreateChannelImage(pixels, 2);
    var redUrl := encode(red[..]);
    var greenUrl := encode(green[..]);
    var blueUrl := encode(blue[..]);
    if redUrl.None? || greenUrl.None? || blueUrl.None? {
      return Rejected(BlobError);
    }
    r := Split(ChannelUrls(redUrl.value, greenUrl.value, blueUrl.value));
  }
}
