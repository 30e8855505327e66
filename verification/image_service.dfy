/**
 * The SwiftUI variant's image service: IIIF image URLs for three widths, a
 * memory cache keyed by image id and width, and a CDN-then-official-origin
 * download with response checks. URLs follow the image request syntax of
 * section 2.1 of the IIIF Image API 2.1, with the "w," size form of its
 * section 4.2.
 */
module ImageService {
  import opened Wrappers
  import opened Media
  import Http
  import Text

  const CdnUrl: string := "https://lakeimagesweb.artic.edu/iiif/2"
  const OfficialIiifUrl: string := "https://www.artic.edu/iiif/2"
  const LargeSize: string := "1686"

  datatype ImageSize = Thumbnail | Medium | Large {

    /** The raw value: the requested width in pixels. */
    function RawValue(): string {
      match this
      case Thumbnail => "200"
      case Medium => "843"
      case Large => LargeSize
    }

    /** Region, size, rotation and quality/format segments of the request. */
    function Path(): string {
      "/full/" + RawValue() + ",/0/default.jpg"
    }
  }

  /** `ImageError`, plus the errors `URLSession` throws, which pass through untouched. */
  datatype ImageError = InvalidUrl | DownloadFailed | InvalidImageData | SaveFailed | Transport(description: string)

  /** The outcome of one `URLSession` request: a thrown error, or the response with its body. */
  datatype Fetch = Threw(description: string) | Responded(response: Http.Response, body: Bytes)

  /** The platform calls: `URL(string:)`, one network round trip per URL, and `UIImage(data:)`. */
  datatype Network = Network(parses: string -> bool, fetch: string -> Fetch, decode: Bytes -> Option<Image>)

  /** `"\(imageId)-\(size.rawValue)"`. */
  function CacheKey(imageId: string, size: ImageSize): string {
    imageId + "-" + size.RawValue()
  }

  function CdnImageUrl(imageId: string, size: ImageSize): string {
    CdnUrl + "/" + imageId + size.Path()
  }

  function OfficialImageUrl(imageId: string, size: ImageSize): string {
    OfficialIiifUrl + "/" + imageId + size.Path()
  }

  /** True when the response carries a Content-Type header containing "text/html". */
  predicate IsHtml(r: Http.Response)
    requires r.HttpResponse?
  {
    r.contentType.Some? && Text.Contains(r.contentType.value, "text/html")
  }

  /** The private `downloadImage(from:)`: the checks in source order. */
  function DownloadImage(net: Network, url: string): (r: Result<Image, ImageError>)
    ensures !net.parses(url) ==> r == Failure(InvalidUrl)
    ensures net.parses(url) && net.fetch(url).Threw? ==> r == Failure(Transport(net.fetch(url).description))
    ensures r.Success? <==>
      && net.parses(url) && net.fetch(url).Responded?
      && Http.IsSuccessfulHttp(net.fetch(url).response) && !IsHtml(net.fetch(url).response)
      && net.decode(net.fetch(url).body).Some?
    ensures r.Success? ==> Some(r.value) == net.decode(net.fetch(url).body)
    ensures r == Failure(InvalidImageData) ==>
      net.fetch(url).Responded? && Http.IsSuccessfulHttp(net.fetch(url).response) && !IsHtml(net.fetch(url).response)
  {
    if !net.parses(url) then Failure(InvalidUrl)
    else
      match net.fetch(url)
      case Threw(e) => Failure(Transport(e))
      case Responded(response, body) =>
        if !response.HttpResponse? then Failure(DownloadFailed)
        else if !Http.IsSuccess(response.status) then Failure(DownloadFailed)
        else if IsHtml(response) then Failure(DownloadFailed)
        else match net.decode(body)
          case Some(img) => Success(img)
          case None => Failure(InvalidImageData)
  }

  /** The URLs a download attempt puts on the network: none when the URL does not parse. */
  function Sent(net: Network, url: string): seq<string> {
    if net.parses(url) then [url] else []
  }

  /** The result of `loadImage`, the cache afterwards, and the URLs requested, in order. */
  datatype Load = Load(result: Result<Image, ImageError>, cache: map<string, Image>, requests: seq<string>)

  /** `loadImage(imageId:size:)`. */
  function LoadImage(cache: map<string, Image>, net: Network, imageId: string, size: ImageSize): (r: Load)
    ensures |r.requests| <= 2
    ensures r.result.Success? ==> r.cache == cache[CacheKey(imageId, size) := r.result.value]
    ensures r.result.Failure? ==> r.cache == cache
  {
    var key := CacheKey(imageId, size);
    if key in cache then Load(Success(cache[key]), cache, [])
    else
      var cdn := CdnImageUrl(imageId, size);
      match DownloadImage(net, cdn)
      case Success(img) => Load(Success(img), cache[key := img], Sent(net, cdn))
      case Failure(_) =>
        var official := OfficialImageUrl(imageId, size);
        match DownloadImage(net, official)
        case Success(img) => Load(Success(img), cache[key := img], Sent(net, cdn) + Sent(net, official))
        case Failure(e) => Load(Failure(e), cache, Sent(net, cdn) + Sent(net, official))
  }

  /** `downloadFullResolutionImage(imageId:)`: raw bytes of the 1686-wide CDN image; no cache involved. */
  function DownloadFullResolutionImage(net: Network, imageId: string): (r: Result<Bytes, ImageError>)
    ensures var url := CdnImageUrl(imageId, Large);
            r.Success? <==> net.parses(url) && net.fetch(url).Responded? && Http.IsSuccessfulHttp(net.fetch(url).response)
    ensures var url := CdnImageUrl(imageId, Large);
            r.Success? ==> r.value == net.fetch(url).body
    ensures var url := CdnImageUrl(imageId, Large);
            net.parses(url) && net.fetch(url).Responded? && !Http.IsSuccessfulHttp(net.fetch(url).response)
            ==> r == Failure(DownloadFailed)
  {
    var url := CdnUrl + "/" + imageId + "/full/" + LargeSize + ",/0/default.jpg";
    assert url == CdnImageUrl(imageId, Large);
    if !net.parses(url) then Failure(InvalidUrl)
    else
      match net.fetch(url)
      case Threw(e) => Failure(Transport(e))
      case Responded(response, body) =>
        if Http.IsSuccessfulHttp(response) then Success(body) else Failure(DownloadFailed)
  }

  /** `clearCache()`. */
  function ClearCache(cache: map<string, Image>): (r: map<string, Image>)
    ensures forall k :: k !in r
  {
    map[]
  }

  /** A cached image is returned with no request and no change to the cache. */
  lemma LoadImageCacheHit(cache: map<string, Image>, net: Network, imageId: string, size: ImageSize)
    requires CacheKey(imageId, size) in cache
    ensures LoadImage(cache, net, imageId, size) == Load(Success(cache[CacheKey(imageId, size)]), cache, [])
  {
  }

  /** On a miss the CDN is asked first, and its success ends the load with its image. */
  lemma LoadImageCdnFirst(cache: map<string, Image>, net: Network, imageId: string, size: ImageSize)
    requires CacheKey(imageId, size) !in cache
    ensures var r := LoadImage(cache, net, imageId, size);
            net.parses(CdnImageUrl(imageId, size)) ==> |r.requests| > 0 && r.requests[0] == CdnImageUrl(imageId, size)
    ensures var r := LoadImage(cache, net, imageId, size);
            DownloadImage(net, CdnImageUrl(imageId, size)).Success? ==>
              r.result == DownloadImage(net, CdnImageUrl(imageId, size)) && OfficialImageUrl(imageId, size) !in r.requests
  {
    CdnAndOfficialDiffer(imageId, size);
  }

  /** When the CDN attempt fails, the load's outcome is exactly the official attempt's outcome. */
  lemma LoadImageFallback(cache: map<string, Image>, net: Network, imageId: string, size: ImageSize)
    requires CacheKey(imageId, size) !in cache
    requires DownloadImage(net, CdnImageUrl(imageId, size)).Failure?
    ensures var r := LoadImage(cache, net, imageId, size);
            && r.result == DownloadImage(net, OfficialImageUrl(imageId, size))
            && r.requests == Sent(net, CdnImageUrl(imageId, size)) + Sent(net, OfficialImageUrl(imageId, size))
  {
  }

  /** The CDN and the official origin are different hosts, so their URLs never coincide. */
  lemma CdnAndOfficialDiffer(imageId: string, size: ImageSize)
    ensures CdnImageUrl(imageId, size) != OfficialImageUrl(imageId, size)
  {
    assert CdnImageUrl(imageId, size)[8] == 'l';
    assert OfficialImageUrl(imageId, size)[8] == 'w';
  }

  /** Distinct (image id, size) pairs get distinct cache keys. */
  lemma CacheKeyInjective(id1: string, s1: ImageSize, id2: string, s2: ImageSize)
    requires CacheKey(id1, s1) == CacheKey(id2, s2)
    ensures id1 == id2 && s1 == s2
  {
    var k := CacheKey(id1, s1);
    var r1 := s1.RawValue();
    var r2 := s2.RawValue();
    assert k[|k| - |r1|..] == r1;
    assert k[|k| - |r2|..] == r2;
    assert k[|k| - 1] == r1[|r1| - 1] == r2[|r2| - 1];
    assert s1 == s2;
    assert k[..|k| - |r1| - 1] == id1;
    assert k[..|k| - |r2| - 1] == id2;
  }

  /**
   * A CDN answering 503 and an official origin answering 200 with decodable
   * bytes: the image comes from the second request and is cached under the key.
   */
  lemma CdnOutageFallsBackToOfficial(cache: map<string, Image>, net: Network, imageId: string, size: ImageSize, body: Bytes, img: Image)
    requires CacheKey(imageId, size) !in cache
    requires net.parses(CdnImageUrl(imageId, size)) && net.parses(OfficialImageUrl(imageId, size))
    requires net.fetch(CdnImageUrl(imageId, size)) == Responded(Http.HttpResponse(503, Some("text/html")), [])
    requires net.fetch(OfficialImageUrl(imageId, size)) == Responded(Http.HttpResponse(200, Some("image/jpeg")), body)
    requires net.decode(body) == Some(img)
    ensures LoadImage(cache, net, imageId, size)
         == Load(Success(img), cache[CacheKey(imageId, size) := img], [CdnImageUrl(imageId, size), OfficialImageUrl(imageId, size)])
  {
    var ct := "image/jpeg";
    assert ct[..9][0] != "text/html"[0];
    assert ct[1..][..9][0] != "text/html"[0];
    assert |ct[1..][1..]| < 9;
  }

  /** A 200 response labelled text/html is refused even when its body would decode. */
  lemma HtmlBodyRefused(net: Network, url: string, body: Bytes)
    requires net.parses(url)
    requires net.fetch(url) == Responded(Http.HttpResponse(200, Some("text/html; charset=UTF-8")), body)
    ensures DownloadImage(net, url) == Failure(DownloadFailed)
  {
    assert "text/html; charset=UTF-8"[..9] == "text/html";
  }

  /** After `clearCache()` every load misses the cache. */
  lemma LoadAfterClearMisses(cache: map<string, Image>, net: Network, imageId: string, size: ImageSize)
    requires net.parses(CdnImageUrl(imageId, size))
    ensures LoadImage(ClearCache(cache), net, imageId, size).requests != []
  {
    LoadImageCdnFirst(ClearCache(cache), net, imageId, size);
  }
}
