/** The requests the client sends and the classification of what comes back.
    The boundary token is one process-wide value; the model takes it as a
    parameter. `JSONParser.encode` is taken as a parameter too: a total
    function that either yields the JSON bytes or fails. */
module NetworkTask {
  import opened Wrappers
  import opened Utf8
  import Multipart
  import NetworkAddress

  // Payloads, passed through the JSON encoder only.

  /** The currency code; its definition is not part of this model. */
  datatype Currency = Currency(code: string)

  /** `Double` prices are kept as reals: only the encoder reads them. */
  datatype SalesInformation = SalesInformation(
    name: string,
    descriptions: string,
    price: real,
    currency: Currency,
    discountedPrice: Option<real>,
    stock: Option<int>,
    secret: string)

  datatype ModificationInformation = ModificationInformation(
    name: Option<string>,
    descriptions: Option<string>,
    thumbnailId: Option<int>,
    price: Option<int>,
    currency: Option<Currency>,
    discountedPrice: Option<real>,
    stock: Option<int>,
    secret: string)

  // The multipart body.

  /** `buildBody`: `None` when the sales information cannot be encoded,
      otherwise the multipart layout of `Multipart.Body` around the JSON. */
  method BuildBody(boundary: string, encode: SalesInformation -> Option<Bytes>,
                   salesInformation: SalesInformation, images: seq<Multipart.Image>)
    returns (body: Option<Bytes>)
    ensures body.None? <==> encode(salesInformation).None?
    ensures body.Some? ==> body.value == Multipart.Body(boundary, encode(salesInformation).value, images)
  {
    var endBoundary := Encode(Multipart.EndBoundary(boundary));
    var newLine := Encode(Multipart.CRLF);
    var json := encode(salesInformation);
    if json.None? {
      return None;
    }
    var data: Bytes := [];
    var paramsBody := "--" + boundary + Multipart.CRLF;
    paramsBody := paramsBody + Multipart.ParamsDisposition;
    data := data + Encode(paramsBody);
    data := data + json.value;
    ghost var head := data;
    for i := 0 to |images|
      invariant data == head + Multipart.ImageParts(boundary, images[..i])
    {
      var fileName, image := images[i].fileName, images[i].data;
      var imagesBody := Multipart.CRLF + "--" + boundary + Multipart.CRLF;
      imagesBody := imagesBody + (Multipart.ImagesDisposition + fileName + Multipart.CRLF);
      Multipart.AppendImagePart(boundary, images, i, head, data);
      data := data + Encode(imagesBody);
      data := data + newLine;
      data := data + image;
    }
    assert images[..|images|] == images;
    data := data + endBoundary;
    body := Some(data);
  }

  // Requests.

  datatype Request = Request(url: string, httpMethod: string, headers: map<string, string>, body: Option<Bytes>)

  /** `URLRequest(url:)`: a GET without header fields or body. */
  function NewRequest(url: string): Request {
    Request(url, "GET", map[], None)
  }

  /** `addValue(_:forHTTPHeaderField:)`: a value for a field already present
      is appended to it after a comma. */
  function AddValue(request: Request, value: string, field: string): Request {
    var headers := request.headers;
    request.(headers := headers[field := if field in headers then headers[field] + "," + value else value])
  }

  const MultipartPrefix: string := "multipart/form-data; boundary="

  function ContentType(boundary: string): string {
    MultipartPrefix + boundary
  }

  /** The `boundary` parameter of a multipart Content-Type value. */
  function BoundaryParameter(contentType: string): Option<string> {
    if |MultipartPrefix| <= |contentType| && contentType[..|MultipartPrefix|] == MultipartPrefix
    then Some(contentType[|MultipartPrefix|..])
    else None
  }

  function HealthCheckerRequest(): Request {
    NewRequest(NetworkAddress.Url(NetworkAddress.HealthChecker))
  }

  function ProductDetailRequest(productId: int): Request {
    NewRequest(NetworkAddress.Url(NetworkAddress.ProductDetail(productId)))
  }

  function ProductListRequest(pageNumber: int, itemsPerPage: int): Request {
    NewRequest(NetworkAddress.Url(NetworkAddress.ProductList(pageNumber, itemsPerPage)))
  }

  /** The three reads are plain GETs without header fields or body. */
  lemma ReadRequests(productId: int, pageNumber: int, itemsPerPage: int)
    ensures var rs := [HealthCheckerRequest(), ProductDetailRequest(productId),
                       ProductListRequest(pageNumber, itemsPerPage)];
            forall r :: r in rs ==> r.httpMethod == "GET" && r.headers == map[] && r.body == None
    ensures HealthCheckerRequest().url == NetworkAddress.ApiHost + "/healthChecker"
    ensures ProductDetailRequest(productId).url
            == NetworkAddress.Url(NetworkAddress.ProductModification(productId))
  {
  }

  /** `requestProductRegistration`: a POST to the registration URL carrying
      the `identifier` header and a multipart Content-Type whose boundary is
      the one the body is built with. When the sales information cannot be
      encoded the request still goes out, without a body. */
  method RequestProductRegistration(boundary: string, identifier: string,
                                    encode: SalesInformation -> Option<Bytes>,
                                    salesInformation: SalesInformation,
                                    images: seq<Multipart.Image>)
    returns (request: Request)
    ensures request.url == NetworkAddress.ApiHost + "/api/products"
    ensures request.httpMethod == "POST"
    ensures request.headers.Keys == {"identifier", "Content-Type"}
    ensures request.headers["identifier"] == identifier
    ensures BoundaryParameter(request.headers["Content-Type"]) == Some(boundary)
    ensures request.body.None? <==> encode(salesInformation).None?
    ensures request.body.Some? ==>
              request.body.value == Multipart.Body(boundary, encode(salesInformation).value, images)
  {
    request := NewRequest(NetworkAddress.Url(NetworkAddress.ProductRegistration));
    request := request.(httpMethod := "POST");
    request := AddValue(request, identifier, "identifier");
    request := AddValue(request, ContentType(boundary), "Content-Type");
    var body := BuildBody(boundary, encode, salesInformation, images);
    request := request.(body := body);
    assert ContentType(boundary)[..|MultipartPrefix|] == MultipartPrefix;
    assert ContentType(boundary)[|MultipartPrefix|..] == boundary;
  }

  /** `requestProductModification`: a PATCH to the product's URL carrying
      the `identifier` header and the encoded modification, or no body when
      encoding fails. No Content-Type is set. */
  function ProductModificationRequest(identifier: string, productId: int,
                                      encode: ModificationInformation -> Option<Bytes>,
                                      information: ModificationInformation): (r: Request)
    ensures r.url == NetworkAddress.Url(NetworkAddress.ProductDetail(productId))
    ensures r.httpMethod == "PATCH"
    ensures r.headers.Keys == {"identifier"} && r.headers["identifier"] == identifier
    ensures r.body == encode(information)
  {
    var request := NewRequest(NetworkAddress.Url(NetworkAddress.ProductModification(productId)));
    AddValue(request.(httpMethod := "PATCH"), identifier, "identifier").(body := encode(information))
  }

  // Classifying the outcome of a data task.

  datatype NetworkError = RequestFailed | HttpError

  /** A transport-level `Error`; its contents are never inspected. */
  datatype TransportError = TransportError(description: string)

  /** A `URLResponse`: an `HTTPURLResponse` with its status code, or some
      other kind of response. */
  datatype Response = HttpResponse(statusCode: int) | OtherResponse

  predicate IsSuccessful(response: Option<Response>) {
    response.Some? && response.value.HttpResponse? && 200 <= response.value.statusCode <= 299
  }

  /** The completion closure of `dataTask`: what the completion handler is
      called with, or `None` when it is not called at all. A transport error
      wins over everything else; otherwise a missing, non-HTTP or non-2xx
      response is an HTTP error whatever the body; a 2xx response delivers
      its data unchanged, and a 2xx response without data calls nothing. */
  function Complete(data: Option<Bytes>, response: Option<Response>, error: Option<TransportError>)
    : (r: Option<Result<Bytes, NetworkError>>)
    ensures r == Some(Failure(RequestFailed)) <==> error.Some?
    ensures r == Some(Failure(HttpError)) <==> error.None? && !IsSuccessful(response)
    ensures (r.Some? && r.value.Success?) <==> error.None? && IsSuccessful(response) && data.Some?
    ensures r.Some? && r.value.Success? ==> Some(r.value.value) == data
    ensures r.None? <==> error.None? && IsSuccessful(response) && data.None?
  {
    if error.Some? then Some(Failure(RequestFailed))
    else if !IsSuccessful(response) then Some(Failure(HttpError))
    else if data.None? then None
    else Some(Success(data.value))
  }

  /** Concrete cases: a 404 carrying a body is an HTTP error, a 204 without a
      body calls nothing, and a transport error hides a 200 with data. */
  lemma CompleteExamples(body: Bytes, e: TransportError)
    ensures Complete(Some(body), Some(HttpResponse(404)), None) == Some(Failure(HttpError))
    ensures Complete(None, Some(HttpResponse(204)), None) == None
    ensures Complete(Some(body), Some(HttpResponse(200)), Some(e)) == Some(Failure(RequestFailed))
    ensures Complete(Some(body), Some(HttpResponse(299)), None) == Some(Success(body))
    ensures Complete(Some(body), Some(HttpResponse(300)), None) == Some(Failure(HttpError))
    ensures Complete(Some(body), Some(OtherResponse), None) == Some(Failure(HttpError))
  {
  }
}
