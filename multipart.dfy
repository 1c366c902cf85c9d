/** The byte layout of the `multipart/form-data` body sent with a product
    registration (RFC 7578, with the delimiter syntax of section 5.1.1 of
    RFC 2046): a `params` part holding the JSON-encoded sales information,
    one `images` part per image in iteration order, then the closing
    delimiter. `Body` is the specification the body builder is proved
    against; the lemmas state its framing and its length. */
module Multipart {
  import opened Utf8

  /** One entry of the images dictionary: the file name and the image bytes. */
  datatype Image = Image(fileName: string, data: Bytes)

  const CRLF: string := "\r\n"
  const FormData: string := "Content-Disposition: form-data; "
  /** What follows the first delimiter line: the `params` disposition and
      the blank line that ends the part's header. */
  const ParamsDisposition: string := FormData + "name=\"params\"" + CRLF + CRLF
  /** The `images` disposition up to the file name. */
  const ImagesDisposition: string := FormData + "name=\"images\"; filename="

  function ParamsHeader(boundary: string): string {
    ("--" + boundary + CRLF) + ParamsDisposition
  }

  /** The file name is written as it is, without quotes. */
  function ImageHeader(boundary: string, fileName: string): string {
    (CRLF + "--" + boundary + CRLF) + (ImagesDisposition + fileName + CRLF)
  }

  function EndBoundary(boundary: string): string {
    CRLF + "--" + boundary + "--"
  }

  /** An image's part: its header, the blank line, then the image bytes. */
  function ImagePart(boundary: string, image: Image): Bytes {
    Encode(ImageHeader(boundary, image.fileName)) + Encode(CRLF) + image.data
  }

  /** The image parts, one after the other, in the order of `images`. */
  function ImageParts(boundary: string, images: seq<Image>): Bytes
    decreases |images|
  {
    if images == [] then []
    else ImageParts(boundary, images[..|images| - 1]) + ImagePart(boundary, images[|images| - 1])
  }

  function Body(boundary: string, json: Bytes, images: seq<Image>): Bytes {
    Encode(ParamsHeader(boundary)) + json + ImageParts(boundary, images) + Encode(EndBoundary(boundary))
  }

  /** Sum of the lengths of the image parts. */
  function ImagePartsLength(boundary: string, images: seq<Image>): nat {
    if images == [] then 0
    else |ImagePart(boundary, images[0])| + ImagePartsLength(boundary, images[1..])
  }

  lemma AppendAssociative<T>(a: seq<T>, b: seq<T>, c: seq<T>)
    ensures (a + b) + c == a + (b + c)
  {
  }

  lemma AppendThree<T>(a: seq<T>, x: seq<T>, y: seq<T>, z: seq<T>)
    ensures a + x + y + z == a + (x + y + z)
  {
  }

  /** One more image appends that image's part. */
  lemma ImagePartsStep(boundary: string, images: seq<Image>, i: nat)
    requires i < |images|
    ensures ImageParts(boundary, images[..i + 1]) == ImageParts(boundary, images[..i]) + ImagePart(boundary, images[i])
  {
    assert images[..i + 1][..i] == images[..i];
  }

  /** Appending one more image's header, blank line and bytes to a buffer
      holding the parts of the images before it. */
  lemma AppendImagePart(boundary: string, images: seq<Image>, i: nat, head: Bytes, data: Bytes)
    requires i < |images|
    requires data == head + ImageParts(boundary, images[..i])
    ensures data + Encode(ImageHeader(boundary, images[i].fileName)) + Encode(CRLF) + images[i].data
            == head + ImageParts(boundary, images[..i + 1])
  {
    AppendThree(data, Encode(ImageHeader(boundary, images[i].fileName)), Encode(CRLF), images[i].data);
    ImagePartsStep(boundary, images, i);
    AppendAssociative(head, ImageParts(boundary, images[..i]), ImagePart(boundary, images[i]));
  }

  lemma {:induction false} ImagePartsAppend(boundary: string, xs: seq<Image>, ys: seq<Image>)
    ensures ImageParts(boundary, xs + ys) == ImageParts(boundary, xs) + ImageParts(boundary, ys)
    decreases |ys|
  {
    if ys == [] {
      assert xs + ys == xs;
    } else {
      var zs := xs + ys;
      var init, last := ys[..|ys| - 1], ys[|ys| - 1];
      assert zs[..|zs| - 1] == xs + init;
      assert zs[|zs| - 1] == last;
      assert ImageParts(boundary, zs) == ImageParts(boundary, xs + init) + ImagePart(boundary, last);
      assert ImageParts(boundary, ys) == ImageParts(boundary, init) + ImagePart(boundary, last);
      ImagePartsAppend(boundary, xs, init);
      AppendAssociative(ImageParts(boundary, xs), ImageParts(boundary, init), ImagePart(boundary, last));
    }
  }

  /** The images are laid out front to back: the first image's part comes
      first, followed by the parts of the rest. */
  lemma ImagePartsFront(boundary: string, image: Image, rest: seq<Image>)
    ensures ImageParts(boundary, [image] + rest) == ImagePart(boundary, image) + ImageParts(boundary, rest)
  {
    ImagePartsAppend(boundary, [image], rest);
    assert [image][..0] == [];
    assert ImageParts(boundary, [image]) == ImagePart(boundary, image);
  }

  lemma {:induction false} ImagePartsSize(boundary: string, images: seq<Image>)
    ensures |ImageParts(boundary, images)| == ImagePartsLength(boundary, images)
    decreases |images|
  {
    if images != [] {
      ImagePartsFront(boundary, images[0], images[1..]);
      assert [images[0]] + images[1..] == images;
      ImagePartsSize(boundary, images[1..]);
    }
  }

  lemma FormDataAscii()
    ensures IsAscii(FormData) && |FormData| == 32
  {
  }

  lemma DispositionsAscii()
    ensures IsAscii(CRLF) && IsAscii(ParamsDisposition) && IsAscii(ImagesDisposition)
    ensures |ParamsDisposition| == 49 && |ImagesDisposition| == 56
  {
    FormDataAscii();
    assert IsAscii("name=\"params\"");
    assert IsAscii("name=\"images\"; filename=");
  }

  lemma ParamsHeaderSize(boundary: string)
    requires IsAscii(boundary)
    ensures |Encode(ParamsHeader(boundary))| == |boundary| + 53
  {
    DispositionsAscii();
    EncodeAscii(ParamsHeader(boundary));
  }

  lemma EndBoundarySize(boundary: string)
    requires IsAscii(boundary)
    ensures |Encode(EndBoundary(boundary))| == |boundary| + 6
  {
    EncodeAscii(EndBoundary(boundary));
  }

  /** With an ASCII boundary (a UUID string is one) an image header has a
      fixed size around the boundary and the UTF-8 bytes of the file name. */
  lemma ImageHeaderSize(boundary: string, fileName: string)
    requires IsAscii(boundary)
    ensures |Encode(ImageHeader(boundary, fileName))| == |boundary| + |Encode(fileName)| + 64
  {
    var front := CRLF + "--" + boundary + CRLF + ImagesDisposition;
    DispositionsAscii();
    EncodeAscii(front);
    EncodeAscii(CRLF);
    EncodeAppend(front, fileName);
    EncodeAppend(front + fileName, CRLF);
    AppendThree(CRLF + "--" + boundary + CRLF, ImagesDisposition, fileName, CRLF);
  }

  /** The length of the body is the sum of its pieces: the params header, the
      JSON, each image's header, blank line and bytes, and the closing
      delimiter. */
  lemma BodyLength(boundary: string, json: Bytes, images: seq<Image>)
    requires IsAscii(boundary)
    ensures |Body(boundary, json, images)|
            == |boundary| + 53 + |json| + ImagePartsLength(boundary, images) + |boundary| + 6
    ensures forall i :: 0 <= i < |images| ==>
              |ImagePart(boundary, images[i])|
              == |boundary| + |Encode(images[i].fileName)| + 66 + |images[i].data|
  {
    ParamsHeaderSize(boundary);
    EndBoundarySize(boundary);
    ImagePartsSize(boundary, images);
    EncodeAscii(CRLF);
    forall i | 0 <= i < |images|
      ensures |ImagePart(boundary, images[i])|
              == |boundary| + |Encode(images[i].fileName)| + 66 + |images[i].data|
    {
      ImageHeaderSize(boundary, images[i].fileName);
    }
  }

  /** The body opens with the first delimiter line and closes with the close
      delimiter, both built from the same boundary. */
  lemma BodyFraming(boundary: string, json: Bytes, images: seq<Image>)
    ensures var body := Body(boundary, json, images);
            var open := Encode("--" + boundary + CRLF);
            var close := Encode(CRLF + "--" + boundary + "--");
            |open| + |close| <= |body|
            && body[..|open|] == open
            && body[|body| - |close|..] == close
  {
    EncodeAppend("--" + boundary + CRLF, ParamsDisposition);
  }

  /** With no images the body is the params part and the close delimiter. */
  lemma BodyWithoutImages(boundary: string, json: Bytes)
    ensures Body(boundary, json, []) == Encode(ParamsHeader(boundary)) + json + Encode(EndBoundary(boundary))
  {
  }

  /** With one image the body is the params part, that image's part, and the
      close delimiter. */
  lemma BodyWithOneImage(boundary: string, json: Bytes, fileName: string, data: Bytes)
    ensures Body(boundary, json, [Image(fileName, data)])
            == Encode(ParamsHeader(boundary)) + json
               + Encode(ImageHeader(boundary, fileName)) + Encode(CRLF) + data
               + Encode(EndBoundary(boundary))
  {
    var images := [Image(fileName, data)];
    assert images[..0] == [];
    assert ImageParts(boundary, images) == ImagePart(boundary, images[0]);
  }
}
