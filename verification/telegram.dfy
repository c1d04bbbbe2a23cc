/** Delivery to Telegram (`Services/TelegramBotService`): HTML escaping, the
    message layout, the photo-or-text decision with its fallback, and the
    rate-limit retry of `PostJsonAsync`, as a step function over the
    responses the Bot API gives. */
module Telegram {
  import opened Common
  import opened Text
  import opened Feed

  // -------------------------------------------------------------- escaping

  const AmpEntity: string := "&amp;"
  const LtEntity: string := "&lt;"
  const GtEntity: string := "&gt;"
  const QuotEntity: string := "&quot;"

  /** The four `Replace` passes, "&" first so that no entity is escaped twice. */
  function ReplaceChain(s: string): string {
    ReplaceAll(ReplaceAll(ReplaceAll(ReplaceAll(s, "&", AmpEntity), "<", LtEntity), ">", GtEntity), "\"", QuotEntity)
  }

  /** Reference definition: the entity for one character. */
  function EscapeChar(c: char): string {
    if c == '&' then AmpEntity
    else if c == '<' then LtEntity
    else if c == '>' then GtEntity
    else if c == '"' then QuotEntity
    else [c]
  }

  /** Reference definition: each character replaced by its entity. */
  function Escaped(s: string): string
    decreases |s|
  {
    if |s| == 0 then [] else EscapeChar(s[0]) + Escaped(s[1..])
  }

  /** Entity decoding, as an HTML reader undoes the four entities. */
  function Unescape(t: string): string
    decreases |t|
  {
    if |t| == 0 then []
    else if StartsWith(t, AmpEntity) then "&" + Unescape(t[|AmpEntity|..])
    else if StartsWith(t, LtEntity) then "<" + Unescape(t[|LtEntity|..])
    else if StartsWith(t, GtEntity) then ">" + Unescape(t[|GtEntity|..])
    else if StartsWith(t, QuotEntity) then "\"" + Unescape(t[|QuotEntity|..])
    else [t[0]] + Unescape(t[1..])
  }

  lemma ReplaceChainAppend(x: string, y: string)
    ensures ReplaceChain(x + y) == ReplaceChain(x) + ReplaceChain(y)
  {
    var a1 := ReplaceAll(x, "&", AmpEntity);
    var b1 := ReplaceAll(y, "&", AmpEntity);
    ReplaceCharAppend(x, y, '&', AmpEntity);
    var a2 := ReplaceAll(a1, "<", LtEntity);
    var b2 := ReplaceAll(b1, "<", LtEntity);
    ReplaceCharAppend(a1, b1, '<', LtEntity);
    var a3 := ReplaceAll(a2, ">", GtEntity);
    var b3 := ReplaceAll(b2, ">", GtEntity);
    ReplaceCharAppend(a2, b2, '>', GtEntity);
    ReplaceCharAppend(a3, b3, '"', QuotEntity);
  }

  /** The chain on one character produces its entity: no later pass touches
      the text an earlier pass produced. */
  lemma ReplaceChainSingle(c: char)
    ensures ReplaceChain([c]) == EscapeChar(c)
  {
    ReplaceCharSingle(c, '&', AmpEntity);
    var a1 := ReplaceAll([c], "&", AmpEntity);
    if c == '&' {
      ReplaceCharAbsent(a1, '<', LtEntity);
      ReplaceCharAbsent(a1, '>', GtEntity);
      ReplaceCharAbsent(a1, '"', QuotEntity);
    } else {
      ReplaceCharSingle(c, '<', LtEntity);
      var a2 := ReplaceAll(a1, "<", LtEntity);
      if c == '<' {
        ReplaceCharAbsent(a2, '>', GtEntity);
        ReplaceCharAbsent(a2, '"', QuotEntity);
      } else {
        ReplaceCharSingle(c, '>', GtEntity);
        var a3 := ReplaceAll(a2, ">", GtEntity);
        if c == '>' {
          ReplaceCharAbsent(a3, '"', QuotEntity);
        } else {
          ReplaceCharSingle(c, '"', QuotEntity);
        }
      }
    }
  }

  /** The chain of `Replace` passes escapes character by character. */
  lemma {:induction false} ReplaceChainIsEscaped(s: string)
    ensures ReplaceChain(s) == Escaped(s)
    decreases |s|
  {
    if |s| == 0 {
    } else {
      assert s == [s[0]] + s[1..];
      ReplaceChainAppend([s[0]], s[1..]);
      ReplaceChainSingle(s[0]);
      ReplaceChainIsEscaped(s[1..]);
    }
  }

  /** Escaped text has no raw '<', '>' or '"'. */
  lemma {:induction false} EscapedNoMarkup(s: string)
    ensures '<' !in Escaped(s) && '>' !in Escaped(s) && '"' !in Escaped(s)
    decreases |s|
  {
    if |s| > 0 {
      EscapedNoMarkup(s[1..]);
    }
  }

  /** Each '&' adds 4 characters, each '<' and '>' 3, each '"' 5. */
  lemma {:induction false} EscapedLength(s: string)
    ensures |Escaped(s)| == |s| + 4 * multiset(s)['&'] + 3 * multiset(s)['<'] + 3 * multiset(s)['>'] + 5 * multiset(s)['"']
    decreases |s|
  {
    if |s| > 0 {
      var c, t := s[0], s[1..];
      EscapedLength(t);
      assert s == [c] + t;
      var m, mt := multiset(s), multiset(t);
      assert m == multiset{c} + mt;
      assert m['&'] == mt['&'] + (if c == '&' then 1 else 0);
      assert m['<'] == mt['<'] + (if c == '<' then 1 else 0);
      assert m['>'] == mt['>'] + (if c == '>' then 1 else 0);
      assert m['"'] == mt['"'] + (if c == '"' then 1 else 0);
      assert |Escaped(s)| == |EscapeChar(c)| + |Escaped(t)|;
    }
  }

  lemma UnescapeAmp(u: string)
    ensures Unescape(AmpEntity + u) == "&" + Unescape(u)
  {
    var t := AmpEntity + u;
    assert t[..5] == AmpEntity && t[5..] == u;
  }

  lemma UnescapeLt(u: string)
    ensures Unescape(LtEntity + u) == "<" + Unescape(u)
  {
    var t := LtEntity + u;
    assert !StartsWith(t, AmpEntity) by {
      assert t[1] == 'l';
    }
    assert t[..4] == LtEntity && t[4..] == u;
  }

  lemma UnescapeGt(u: string)
    ensures Unescape(GtEntity + u) == ">" + Unescape(u)
  {
    var t := GtEntity + u;
    assert !StartsWith(t, AmpEntity) && !StartsWith(t, LtEntity) by {
      assert t[1] == 'g';
    }
    assert t[..4] == GtEntity && t[4..] == u;
  }

  lemma UnescapeQuot(u: string)
    ensures Unescape(QuotEntity + u) == "\"" + Unescape(u)
  {
    var t := QuotEntity + u;
    assert !StartsWith(t, AmpEntity) && !StartsWith(t, LtEntity) && !StartsWith(t, GtEntity) by {
      assert t[1] == 'q';
    }
    assert t[..6] == QuotEntity && t[6..] == u;
  }

  lemma UnescapePlain(c: char, u: string)
    requires c != '&'
    ensures Unescape([c] + u) == [c] + Unescape(u)
  {
    var t := [c] + u;
    assert !StartsWith(t, AmpEntity) && !StartsWith(t, LtEntity) && !StartsWith(t, GtEntity) && !StartsWith(t, QuotEntity) by {
      assert t[0] == c;
    }
    assert t[1..] == u;
  }

  /** Decoding undoes one character's entity. */
  lemma UnescapeCons(c: char, u: string)
    ensures Unescape(EscapeChar(c) + u) == [c] + Unescape(u)
  {
    if c == '&' {
      UnescapeAmp(u);
    } else if c == '<' {
      UnescapeLt(u);
    } else if c == '>' {
      UnescapeGt(u);
    } else if c == '"' {
      UnescapeQuot(u);
    } else {
      UnescapePlain(c, u);
    }
  }

  /** Escaping loses nothing: decoding gives the text back. */
  lemma {:induction false} UnescapeEscaped(s: string)
    ensures Unescape(Escaped(s)) == s
    decreases |s|
  {
    if |s| > 0 {
      UnescapeCons(s[0], Escaped(s[1..]));
      UnescapeEscaped(s[1..]);
    }
  }

  /** `EscapeHtml`: an empty text gives ""; any other goes through the
      four `Replace` passes. */
  function EscapeHtml(s: string): (r: string)
    ensures '<' !in r && '>' !in r && '"' !in r
    ensures |r| == |s| + 4 * multiset(s)['&'] + 3 * multiset(s)['<'] + 3 * multiset(s)['>'] + 5 * multiset(s)['"']
    ensures Unescape(r) == s
  {
    ReplaceChainIsEscaped(s);
    EscapedNoMarkup(s);
    EscapedLength(s);
    UnescapeEscaped(s);
    if |s| == 0 then "" else ReplaceChain(s)
  }

  /** Different texts escape differently. */
  lemma EscapeHtmlInjective(s: string, t: string)
    requires EscapeHtml(s) == EscapeHtml(t)
    ensures s == t
  {
  }

  // --------------------------------------------------------------- message

  /** Everything after the link: the closing quote and the anchor text. */
  const LinkTail: string := "\">Read more</a>"

  /** The text between the bold title and the link: the escaped summary, the
      date and the opening of the anchor. */
  function MessageMiddle(news: NewsItem, formatDate: Instant -> string): string {
    "\n\n" + EscapeHtml(news.summary) + "\n\n\U{1F4C5} " + formatDate(news.publishDate) + "\n\n\U{1F517} <a href=\""
  }

  /** `BuildMessage`: the escaped title in bold, the escaped summary, the
      publish date as `yyyy-MM-dd` (rendered by `formatDate`), and a
      "Read more" anchor whose `href` is the link as is. */
  function BuildMessage(news: NewsItem, formatDate: Instant -> string): string {
    "<b>" + EscapeHtml(news.title) + "</b>" + MessageMiddle(news, formatDate) + news.link + LinkTail
  }

  /** The title appears escaped in bold and decodes back to the record's
      title; the summary is escaped too. */
  lemma BuildMessageTitle(news: NewsItem, formatDate: Instant -> string)
    ensures var m := BuildMessage(news, formatDate);
      var t := EscapeHtml(news.title);
      && m[..3] == "<b>"
      && m[3..3 + |t|] == t && Unescape(t) == news.title && '<' !in t
      && m[3 + |t|..3 + |t| + 4] == "</b>"
      && '<' !in EscapeHtml(news.summary) && Unescape(EscapeHtml(news.summary)) == news.summary
  {
    var m := BuildMessage(news, formatDate);
    var t := EscapeHtml(news.title);
    var rest := "</b>" + MessageMiddle(news, formatDate) + news.link + LinkTail;
    assert m == "<b>" + t + rest;
    ConcatSlices("<b>", t, rest);
  }

  /** The link appears verbatim right before the end of the anchor, so a '"'
      or '<' in it reaches the HTML parser unescaped. */
  lemma BuildMessageLink(news: NewsItem, formatDate: Instant -> string)
    ensures var m := BuildMessage(news, formatDate);
      && m[|m| - |LinkTail| - |news.link|..|m| - |LinkTail|] == news.link
      && m[|m| - |LinkTail|..] == LinkTail
  {
    var m := BuildMessage(news, formatDate);
    var front := "<b>" + EscapeHtml(news.title) + "</b>" + MessageMiddle(news, formatDate);
    assert m == front + news.link + LinkTail;
  }

  // ------------------------------------------------------------ responses

  /** `parameters.retry_after` as read from a 429 body. Reading throws, not
      only when the body is not JSON, but also when the root or `parameters`
      is not an object (`TryGetProperty`) or `retry_after` is not a number
      (`TryGetInt32`); all of these are `BodyNotJson`. */
  datatype RetryAfter =
    | Seconds(n: Int32)            // present and a JSON number that fits an `int`
    | NotGiven                     // no `parameters`, no `retry_after`, or a number no `int` holds
    | BodyNotJson(message: string) // reading the body threw, with this message

  /** One exchange with the Bot API, as `PostJsonAsync` sees it. */
  datatype Response =
    | Success
    | RateLimited(body: string, retryAfter: RetryAfter)  // status 429
    | HttpError(statusName: string, body: string)        // any other non-success status, by enum name
    | TransportFailure(message: string)                  // `PostAsync` itself threw

  /** How a post ended. `NoMoreResponses` only arises because the model's
      response list is finite: the service would keep posting. */
  datatype Outcome = Posted | Threw(message: string) | DelayRejected | NoMoreResponses

  /** Number of responses consumed, seconds waited, and how it ended. */
  datatype PostResult = PostResult(attempts: nat, waited: nat, outcome: Outcome)

  const TooManyRequestsName: string := "TooManyRequests"

  /** The exception text for a failed call. */
  function ErrorMessage(apiMethod: string, statusName: string, body: string): string {
    "Telegram API Error (" + apiMethod + "): " + statusName + " - " + body
  }

  /** The wait before a retry: `retryAfter + 1` seconds in `int` arithmetic. */
  function Wait(n: Int32): Int32 {
    Wrap32(n + 1)
  }

  /** The longest delay `Task.Delay` accepts, 0xFFFFFFFE milliseconds, in whole seconds. */
  const MaxDelaySeconds: int := 4294967

  /** `Task.Delay` rejects negative and overlong delays. */
  predicate DelayAccepted(w: int) {
    0 <= w <= MaxDelaySeconds
  }

  /** `PostJsonAsync` over the responses it will get, in order: success ends
      the call; a 429 carrying an integer `retry_after` waits and posts again,
      with no cap on the number of retries; everything else throws. */
  function Post(apiMethod: string, rs: seq<Response>): (r: PostResult)
    ensures r.attempts <= |rs|
    ensures |rs| > 0 <==> r.attempts > 0
    ensures r.outcome == NoMoreResponses ==> r.attempts == |rs|
    decreases |rs|
  {
    if |rs| == 0 then PostResult(0, 0, NoMoreResponses)
    else match rs[0]
      case Success => PostResult(1, 0, Posted)
      case TransportFailure(m) => PostResult(1, 0, Threw(m))
      case HttpError(name, body) => PostResult(1, 0, Threw(ErrorMessage(apiMethod, name, body)))
      case RateLimited(body, ra) =>
        match ra
        case NotGiven => PostResult(1, 0, Threw(ErrorMessage(apiMethod, TooManyRequestsName, body)))
        case BodyNotJson(m) => PostResult(1, 0, Threw(m))
        case Seconds(n) =>
          if !DelayAccepted(Wait(n)) then PostResult(1, 0, DelayRejected)
          else
            var rest := Post(apiMethod, rs[1..]);
            PostResult(rest.attempts + 1, rest.waited + Wait(n), rest.outcome)
  }

  /** A response after which the call posts again. */
  predicate Retries(r: Response) {
    r.RateLimited? && r.retryAfter.Seconds? && DelayAccepted(Wait(r.retryAfter.n))
  }

  /** Reference definition: the index of the first response that ends the
      call, or `|rs|`. */
  function FirstFinal(rs: seq<Response>): (k: nat)
    ensures k <= |rs|
    ensures forall i :: 0 <= i < k ==> Retries(rs[i])
    ensures k < |rs| ==> !Retries(rs[k])
    decreases |rs|
  {
    if |rs| == 0 || !Retries(rs[0]) then 0 else FirstFinal(rs[1..]) + 1
  }

  /** Reference definition: the seconds waited before the first `k` responses' retries. */
  function TotalWait(rs: seq<Response>, k: nat): nat
    requires k <= |rs| && forall i :: 0 <= i < k ==> Retries(rs[i])
    decreases k
  {
    if k == 0 then 0
    else
      assert Retries(rs[0]);
      Wait(rs[0].retryAfter.n) + TotalWait(rs[1..], k - 1)
  }

  /** Reference definition: how a single final response ends the call. */
  function Settle(apiMethod: string, r: Response): Outcome
    requires !Retries(r)
  {
    match r
    case Success => Posted
    case TransportFailure(m) => Threw(m)
    case HttpError(name, body) => Threw(ErrorMessage(apiMethod, name, body))
    case RateLimited(body, ra) =>
      match ra
      case NotGiven => Threw(ErrorMessage(apiMethod, TooManyRequestsName, body))
      case BodyNotJson(m) => Threw(m)
      case Seconds(_) => DelayRejected
  }

  /** The call retries through the leading accepted rate limits, waiting the
      sum of their delays, and is decided by the first other response. */
  lemma {:induction false} PostCharacterised(apiMethod: string, rs: seq<Response>)
    ensures var k := FirstFinal(rs);
      Post(apiMethod, rs) ==
        if k == |rs| then PostResult(k, TotalWait(rs, k), NoMoreResponses)
        else PostResult(k + 1, TotalWait(rs, k), Settle(apiMethod, rs[k]))
    decreases |rs|
  {
    if |rs| > 0 && Retries(rs[0]) {
      PostCharacterised(apiMethod, rs[1..]);
      assert FirstFinal(rs) == FirstFinal(rs[1..]) + 1;
    }
  }

  /** There is no retry cap: `n` rate limits asking for no wait, then success,
      take `n + 1` posts and `n` seconds. */
  lemma {:induction false} PostUnbounded(apiMethod: string, n: nat)
    ensures Post(apiMethod, seq(n, _ => RateLimited("", Seconds(0))) + [Success]) == PostResult(n + 1, n, Posted)
    decreases n
  {
    var rs := seq(n, _ => RateLimited("", Seconds(0))) + [Success];
    if n == 0 {
      assert rs == [Success];
    } else {
      assert rs[0] == RateLimited("", Seconds(0));
      assert rs[1..] == seq(n - 1, _ => RateLimited("", Seconds(0))) + [Success];
      PostUnbounded(apiMethod, n - 1);
    }
  }

  /** `retry_after` of `int.MaxValue` overflows: the wait wraps to a negative
      number of seconds, which `Task.Delay` rejects. */
  lemma RetryAfterOverflow(apiMethod: string, body: string)
    ensures Wait(MaxInt32) == MinInt32
    ensures Post(apiMethod, [RateLimited(body, Seconds(MaxInt32))]).outcome == DelayRejected
  {
  }

  // -------------------------------------------------------------- sending

  /** What one post carries: method, chat, photo URL (photos only) and the
      text or caption. */
  datatype Request = Request(apiMethod: string, chatId: string, photo: Option<string>, text: string)

  /** The branch `SendNewsAsync` took. */
  datatype Path = TextOnly | Photo | PhotoThenText

  /** Every post made, in order (retries repeat their request), the seconds
      waited, and how the last call ended; `Threw` and `DelayRejected` are
      logged by `SendNewsAsync` and go no further. */
  datatype Delivery = Delivery(path: Path, requests: seq<Request>, waited: nat, outcome: Outcome)

  /** The photo fallback's exception filter. */
  predicate IsBadRequest(o: Outcome) {
    o.Threw? && (Contains(o.message, "400") || Contains(o.message, "BAD_REQUEST"))
  }

  function PhotoRequest(news: NewsItem, chatId: string, formatDate: Instant -> string): Request {
    Request("sendPhoto", chatId, news.imageUrl, BuildMessage(news, formatDate))
  }

  function TextRequest(news: NewsItem, chatId: string, formatDate: Instant -> string): Request {
    Request("sendMessage", chatId, None, BuildMessage(news, formatDate))
  }

  function Repeat(q: Request, n: nat): (r: seq<Request>)
    ensures |r| == n && forall i :: 0 <= i < n ==> r[i] == q
  {
    seq(n, _ => q)
  }

  /** The branching of `SendNewsAsync` over its two requests: the photo
      request when there is an image, otherwise the text request; a photo call
      failing with "400" or "BAD_REQUEST" in its message is followed by one
      text request. The calls consume `rs` in order. */
  function Deliver(photo: Request, text: Request, hasImage: bool, rs: seq<Response>): (d: Delivery)
    ensures |d.requests| <= |rs|
  {
    if !hasImage then
      var p := Post(text.apiMethod, rs);
      Delivery(TextOnly, Repeat(text, p.attempts), p.waited, p.outcome)
    else
      var p := Post(photo.apiMethod, rs);
      if IsBadRequest(p.outcome) then
        var q := Post(text.apiMethod, rs[p.attempts..]);
        Delivery(PhotoThenText, Repeat(photo, p.attempts) + Repeat(text, q.attempts), p.waited + q.waited, q.outcome)
      else Delivery(Photo, Repeat(photo, p.attempts), p.waited, p.outcome)
  }

  /** Every post is one of the two requests, and once the text request has
      been posted only the text request follows. */
  predicate PhotosThenTexts(rq: seq<Request>, photo: Request, text: Request) {
    && (forall i :: 0 <= i < |rq| ==> rq[i] == photo || rq[i] == text)
    && (forall i, j :: 0 <= i < j < |rq| && rq[i] == text ==> rq[j] == text)
  }

  /** The posts `Deliver` makes are photo posts followed by text posts, with
      only text posts on the text-only path. */
  lemma DeliverShape(photo: Request, text: Request, hasImage: bool, rs: seq<Response>)
    ensures var d := Deliver(photo, text, hasImage, rs);
      && PhotosThenTexts(d.requests, photo, text)
      && (d.path == TextOnly ==> forall i :: 0 <= i < |d.requests| ==> d.requests[i] == text)
  {
    if hasImage {
      var p := Post(photo.apiMethod, rs);
      if IsBadRequest(p.outcome) {
        var q := Post(text.apiMethod, rs[p.attempts..]);
        var rq := Repeat(photo, p.attempts) + Repeat(text, q.attempts);
        assert forall i :: 0 <= i < p.attempts ==> rq[i] == photo;
        assert forall i :: p.attempts <= i < |rq| ==> rq[i] == text;
        assert PhotosThenTexts(rq, photo, text) by {
          forall i, j | 0 <= i < j < |rq| && rq[i] == text
            ensures rq[j] == text
          {
            if j < p.attempts {
              assert rq[j] == photo && rq[i] == photo;
            }
          }
        }
      }
    }
  }

  /** `SendNewsAsync`: a photo with the message as caption when the record has
      an image URL that is not blank, otherwise a text message. */
  function SendNews(news: NewsItem, chatId: string, formatDate: Instant -> string, rs: seq<Response>): (d: Delivery)
    ensures |d.requests| <= |rs|
  {
    Deliver(PhotoRequest(news, chatId, formatDate), TextRequest(news, chatId, formatDate), !IsNullOrWhiteSpace(news.imageUrl), rs)
  }

  /** The photo path is taken exactly when the image URL is not blank; the
      text fallback happens exactly when the photo call failed with a bad
      request, and then only once. */
  lemma SendNewsPaths(news: NewsItem, chatId: string, formatDate: Instant -> string, rs: seq<Response>)
    ensures var d := SendNews(news, chatId, formatDate, rs);
      && (d.path == TextOnly <==> IsNullOrWhiteSpace(news.imageUrl))
      && (d.path == PhotoThenText <==> !IsNullOrWhiteSpace(news.imageUrl) && IsBadRequest(Post("sendPhoto", rs).outcome))
      && (d.path == Photo ==> d.outcome == Post("sendPhoto", rs).outcome)
  {
  }

  /** Every post carries the chat and the built message, is a photo or a
      text post, and photo posts carry the image URL. */
  lemma SendNewsCarries(news: NewsItem, chatId: string, formatDate: Instant -> string, rs: seq<Response>)
    ensures var d := SendNews(news, chatId, formatDate, rs);
      forall i :: 0 <= i < |d.requests| ==>
        && d.requests[i].chatId == chatId && d.requests[i].text == BuildMessage(news, formatDate)
        && (d.requests[i].apiMethod == "sendPhoto" ==> d.requests[i].photo == news.imageUrl)
        && (d.requests[i].apiMethod == "sendPhoto" || d.requests[i].apiMethod == "sendMessage")
  {
    var photo := PhotoRequest(news, chatId, formatDate);
    var text := TextRequest(news, chatId, formatDate);
    DeliverShape(photo, text, !IsNullOrWhiteSpace(news.imageUrl), rs);
  }

  /** Photo posts all come before the text posts, so only the text message
      follows a failed photo, and the text-only path posts no photo. */
  lemma SendNewsOrder(news: NewsItem, chatId: string, formatDate: Instant -> string, rs: seq<Response>)
    ensures var d := SendNews(news, chatId, formatDate, rs);
      && (forall i, j :: 0 <= i < j < |d.requests| && d.requests[i].apiMethod == "sendMessage" ==>
            d.requests[j].apiMethod == "sendMessage")
      && (d.path == TextOnly ==> forall i :: 0 <= i < |d.requests| ==> d.requests[i].apiMethod == "sendMessage")
  {
    var photo := PhotoRequest(news, chatId, formatDate);
    var text := TextRequest(news, chatId, formatDate);
    DeliverShape(photo, text, !IsNullOrWhiteSpace(news.imageUrl), rs);
    var sp, sm := "sendPhoto", "sendMessage";
    assert sp[4] != sm[4];
    assert photo.apiMethod != text.apiMethod;
  }

  /** The error text for a 400 reply with an empty JSON body has neither a
      '0' nor a 'Q' in it. */
  lemma BadRequestTextLacks()
    ensures var m := ErrorMessage("sendPhoto", "BadRequest", "{}");
      '0' !in m && 'Q' !in m
  {
    var m := ErrorMessage("sendPhoto", "BadRequest", "{}");
    var parts := ["Telegram API Error (", "sendPhoto", "): ", "BadRequest", " - ", "{}"];
    assert m == parts[0] + parts[1] + parts[2] + parts[3] + parts[4] + parts[5];
    assert forall i :: 0 <= i < |parts| ==> '0' !in parts[i] && 'Q' !in parts[i];
  }

  /** The fallback keys on the message text, not the status: a 400 response
      whose body mentions neither "400" nor "BAD_REQUEST" does not count as a
      bad request, so no text message follows. */
  lemma BadRequestNeedsBodyText()
    ensures Post("sendPhoto", [HttpError("BadRequest", "{}")]).outcome == Threw(ErrorMessage("sendPhoto", "BadRequest", "{}"))
    ensures !IsBadRequest(Post("sendPhoto", [HttpError("BadRequest", "{}")]).outcome)
  {
    var m := ErrorMessage("sendPhoto", "BadRequest", "{}");
    BadRequestTextLacks();
    var bad := "BAD_REQUEST";
    assert bad[6] == 'Q';
    NotContainsMissingChar(m, "400", 1);
    NotContainsMissingChar(m, bad, 6);
  }
}
