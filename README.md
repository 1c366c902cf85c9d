# OpenMarket network layer in Dafny

A model of the request-building and response-classification core of the
OpenMarket iOS client's `NetworkTask`. It covers:

- **the endpoint resolver** (`NetworkAddress.url`): five operations under one fixed
  host. The product list URL is built the way `URLComponents` builds it, by
  appending the query items `page_no` and `items_per_page` to the components of
  `<host>/api/products?`;
- **the multipart body builder** (`buildBody`): a `multipart/form-data` body
  (RFC 7578, with the delimiter syntax of section 5.1.1 of RFC 2046). It holds a
  `params` part with the JSON-encoded sales information, one `images` part per
  image, then the close delimiter. The builder is a method that appends to a byte
  buffer in a loop. It is proved equal to the pure layout `Multipart.Body`;
- **the request setup** for registration (POST, `identifier` header, a multipart
  Content-Type carrying the body's boundary) and modification (PATCH,
  `identifier` header, JSON body), and the plain GET requests;
- **the response classifier**: the completion closure of `dataTask`. It maps
  `(data?, response?, error?)` to `failure(requestFailed)`, `failure(httpError)`,
  `success(data)` or no call at all.

Modules:

- `Wrappers`: `Option` and `Result`.
- `Decimal`: Swift's `String(Int)`, with its inverse `Parse`.
- `Utf8`: `String.data(using: .utf8)`, with its inverse `Decode`.
- `NetworkAddress`: the resolver, plus a query reader used to state what a URL carries.
- `Multipart`: the body layout.
- `NetworkTask`: payload records, `BuildBody`, the request builders and `Complete`, the classifier.

The model follows the code as written, including these behaviours:

- The list URL is produced for any page number and page size, zero and negative
  included. There is no `InvalidParameters` failure.
- The boundary is one process-wide token (`static let boundary`). The model takes
  it as a parameter. It is not regenerated per body.
- A 2xx response without data calls the completion handler not at all
  (`Complete` returns `None`). There is no `EmptyBody` error.
- `httpError` does not carry the status code.
- When the sales information cannot be JSON-encoded, `buildBody` returns nil. The
  registration request is still built, with no body. There is no `EncodingError`.
- The modification request sets no Content-Type header.
- Each image part begins with `\r\n--B\r\n`, and the body ends with `\r\n--B--`.
  The `filename` parameter is written unquoted.

## Model

| member | source | states |
|---|---|---|
| `Decimal.Digits` | OpenMarket/OpenMarket/Util/NetworkTask.swift:134 | the decimal digits of a natural number are non-empty, all digits, and start with '0' only for zero (no leading zeros) |
| `Decimal.FromInt` | OpenMarket/OpenMarket/Util/NetworkTask.swift:132-134 | `String(Int)` is non-empty, made of digits and '-', and starts with '-' exactly when the number is negative |
| `Decimal.ParseFromInt` | OpenMarket/OpenMarket/Util/NetworkTask.swift:134 | reading back the decimal rendering of any integer yields that integer |
| `Decimal.FromIntInjective` | OpenMarket/OpenMarket/Util/NetworkTask.swift:131-134 | two integers render to the same string if and only if they are equal |
| `Utf8.EncodeChar` | OpenMarket/OpenMarket/Util/NetworkTask.swift:93 | a scalar value encodes to 1 to 4 bytes, and to exactly one byte if and only if it is ASCII |
| `Utf8.DecodeEncode` | OpenMarket/OpenMarket/Util/NetworkTask.swift:102-104 | UTF-8 encoding of header text and file names loses nothing: decoding the bytes gives back the string |
| `Utf8.EncodeAppend` | OpenMarket/OpenMarket/Util/NetworkTask.swift:99-105 | encoding a concatenation of strings is the concatenation of their encodings |
| `Utf8.EncodeAscii` | OpenMarket/OpenMarket/Util/NetworkTask.swift:80-85 | an ASCII string encodes to one byte per character, equal to its code |
| `NetworkAddress.FixedUrls` | OpenMarket/OpenMarket/Util/NetworkTask.swift:127-130 | the health-check URL is host + "/healthChecker" and the registration URL is host + "/api/products", and they differ |
| `NetworkAddress.ProductUrl` | OpenMarket/OpenMarket/Util/NetworkTask.swift:131-134 | detail and modification of a product give the same URL, host + "/api/products/" + decimal id; the id reads back from the URL; different ids give different URLs |
| `NetworkAddress.ProductListUrl` | OpenMarket/OpenMarket/Util/NetworkTask.swift:135-141 | for every pair of integers the list URL has path host + "/api/products" and exactly two query items, `page_no` then `items_per_page`, whose values read back as the two integers |
| `NetworkAddress.ProductListUrlText` | OpenMarket/OpenMarket/Util/NetworkTask.swift:135-141 | the list URL is host + "/api/products?page_no=" + decimal(n) + "&items_per_page=" + decimal(k) |
| `NetworkAddress.ReadComponentsUrl` | OpenMarket/OpenMarket/Util/NetworkTask.swift:136-141 | a URL rendered from a path and query items reads back as that path and those items, in order |
| `NetworkAddress.ParseRenderQuery` | OpenMarket/OpenMarket/Util/NetworkTask.swift:137-140 | rendering query items as `name=value` joined by '&' and parsing them back gives the same items in the same order |
| `Multipart.ImagePartsAppend` | OpenMarket/OpenMarket/Util/NetworkTask.swift:98-108 | the image parts of two image lists laid out one after the other are the parts of the joined list |
| `Multipart.ImagePartsFront` | OpenMarket/OpenMarket/Util/NetworkTask.swift:98-108 | images are laid out in iteration order: the first image's part comes first, then the parts of the rest |
| `Multipart.ImagePartsSize` | OpenMarket/OpenMarket/Util/NetworkTask.swift:98-108 | the image parts take exactly the sum of the sizes of the individual parts |
| `Multipart.ParamsHeaderSize` | OpenMarket/OpenMarket/Util/NetworkTask.swift:90-92 | with an ASCII boundary the params header is the boundary plus 53 bytes |
| `Multipart.ImageHeaderSize` | OpenMarket/OpenMarket/Util/NetworkTask.swift:99-101 | with an ASCII boundary an image header is the boundary plus the UTF-8 file name plus 64 bytes |
| `Multipart.EndBoundarySize` | OpenMarket/OpenMarket/Util/NetworkTask.swift:80 | with an ASCII boundary the close delimiter is the boundary plus 6 bytes |
| `Multipart.BodyLength` | OpenMarket/OpenMarket/Util/NetworkTask.swift:89-110 | the body's length is the sum of its pieces: params header, JSON, each image's header, blank line and bytes, and close delimiter |
| `Multipart.BodyFraming` | OpenMarket/OpenMarket/Util/NetworkTask.swift:91-109 | the body opens with `--B\r\n` and ends with `\r\n--B--`, both with the same boundary |
| `Multipart.BodyWithoutImages` | OpenMarket/OpenMarket/Util/NetworkTask.swift:89-109 | with no images the body is the params part followed by the close delimiter |
| `Multipart.BodyWithOneImage` | OpenMarket/OpenMarket/Util/NetworkTask.swift:89-110 | with one image the body is the params part, then that image's header, blank line and bytes, then the close delimiter |
| `NetworkTask.BuildBody` | OpenMarket/OpenMarket/Util/NetworkTask.swift:78-111 | the builder fails exactly when the sales information cannot be encoded, and otherwise returns the layout `Multipart.Body` around the encoded JSON and the images in order |
| `NetworkTask.ReadRequests` | OpenMarket/OpenMarket/Util/NetworkTask.swift:44-58 | health check, detail and list are GET requests without header fields or body; the detail URL equals the modification URL |
| `NetworkTask.RequestProductRegistration` | OpenMarket/OpenMarket/Util/NetworkTask.swift:13-27 | a POST to host + "/api/products" with exactly the `identifier` and Content-Type headers; the Content-Type's boundary parameter is the body's boundary; the body is the built body, absent exactly when encoding fails |
| `NetworkTask.ProductModificationRequest` | OpenMarket/OpenMarket/Util/NetworkTask.swift:29-42 | a PATCH to the product's detail URL with only the `identifier` header and the encoder's result as body |
| `NetworkTask.Complete` | OpenMarket/OpenMarket/Util/NetworkTask.swift:60-76 | `requestFailed` if and only if there is a transport error; `httpError` if and only if there is no error and the response is missing, not HTTP or outside 200...299; success if and only if there is no error, a 2xx response and data, carrying the identical bytes; no call if and only if there is no error, a 2xx response and no data; the handler is called at most once |
| `NetworkTask.CompleteExamples` | OpenMarket/OpenMarket/Util/NetworkTask.swift:63-73 | 404 with a body is `httpError`; 204 without a body calls nothing; an error hides a 200 with data; 299 is success and 300 is `httpError`; a non-HTTP response is `httpError` |

## Left out

- `URLSession.shared.dataTask`, `resume()` and asynchronous delivery: these are I/O and concurrency. Only the completion closure's logic is modelled (`NetworkTask.Complete`). "At most once" holds because the result is a single `Option`.
- `UUID().uuidString`: the boundary is a parameter. One value per process, as in the code.
- `URL(string:)` and `URLComponents` parsing, and the early `return` when a URL is nil: they depend on Foundation's parser, which is not part of this model. For this fixed host every URL is a plain string.
- `URLComponents` percent-encoding of query values: not modelled. The values are decimal integers, which need no escaping.
- The `.data(using: .utf8)` failure branches of `buildBody`: UTF-8 encoding of a Swift string cannot fail. `Utf8.Encode` is total.
- `JSONParser` (snake_case keys, date format, `JSONEncoder`/`JSONDecoder`): this is library behaviour. The encoder is a function parameter that yields bytes or fails. Decoding responses is not modelled.
- `Double` prices: modelled as `real`. They only pass through the encoder.
- `Int` values are unbounded integers. Swift's 64-bit range is not modelled, and rendering does not depend on it.
- The `images` dictionary: modelled as a sequence in its (unspecified) iteration order. The layout is stated relative to that order.
- Header field names are compared exactly. `URLRequest` compares them case-insensitively, which no request here depends on.
- `Currency`: its definition is not part of this model. It is an opaque code that only the encoder reads.
- MainViewController.swift and ProductsCollectionViewController.swift: UIKit layout and presentation, outside the network core.
