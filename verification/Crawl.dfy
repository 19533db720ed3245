/** Crawl evidence (src/domain/crawl.py) and the crawl loop that produces it (src/crawler.py, `crawl`).
    What the browser returns for each fetch is arbitrary. */
module Crawl {
  import opened Basics
  import opened Outcomes
  import opened Text
  import opened Whitespace

  const MIN_AUDIT_PAGE_CHARS := 120
  const MIN_AUDIT_TOTAL_CHARS := 200

  type Digest = string

  datatype Status = Pending | Success | Partial | Blocked | Failed | Empty | InvalidResponse

  datatype Evidence = Evidence(
    requestedUrl: string, finalUrl: string, statusCode: Option<int>, contentType: string,
    contentLength: nat, sha256: Digest, retrievedAt: int, valid: bool, failureCode: Option<string>)

  datatype Contact = Contact(value: string, sourceUrl: string, collectedAt: int, sha256: Digest, confidence: real)

  datatype Page = Page(url: string, content: string)

  /** `pages` is a dict in insertion order; `contacts` is the dict whose values are reported sorted. */
  datatype CrawlResult = CrawlResult(
    url: string, pages: seq<Page>, evidence: seq<Evidence>, contacts: map<string, Contact>,
    status: Status, errorCode: Option<string>, blockedCodes: seq<string>)

  /** What one fetch can do. `finalUrl` is absent when the URL policy rejects where it ended;
      `found` is absent when the extraction of contacts raises. */
  datatype Fetch =
    | Raises(at: int)
    | Unsuccessful(status: Option<int>, contentType: string, at: int)
    | Fetched(finalUrl: Option<string>, text: string, status: Option<int>, contentType: string,
              at: int, found: Option<seq<(string, real)>>)

  // ----- Evidence of one page -----

  function Lower(s: string): string {
    if s == [] then []
    else [if 'A' <= s[0] <= 'Z' then (s[0] as int + 32) as char else s[0]] + Lower(s[1..])
  }

  function BeforeSemicolon(s: string): string {
    if s == [] || s[0] == ';' then [] else [s[0]] + BeforeSemicolon(s[1..])
  }

  predicate IsSupportedContentType(contentType: string) {
    contentType == ""
    || Lower(Strip(BeforeSemicolon(contentType))) in {"text/html", "application/xhtml+xml", "text/plain"}
  }

  predicate IsSuccessCode(status: Option<int>) {
    status.Some? && 200 <= status.value < 300
  }

  function FailureCode(status: Option<int>, contentType: string, content: string): string {
    if status.None? then "missing_status_code"
    else if !(200 <= status.value < 300) then "http_status_not_success"
    else if !IsSupportedContentType(contentType) then "unsupported_content_type"
    else if |Strip(content)| < MIN_AUDIT_PAGE_CHARS then "content_too_short"
    else "invalid_page_evidence"
  }

  /** `PageEvidence.from_content`, `sha` being SHA-256 of the encoded content. */
  function FromContent(
    sha: string -> Digest, requestedUrl: string, finalUrl: string, status: Option<int>, contentType: string,
    content: string, at: int, failure: Option<string>)
    : Evidence
  {
    var valid := failure.None? && IsSuccessCode(status) && IsSupportedContentType(contentType)
      && |Strip(content)| >= MIN_AUDIT_PAGE_CHARS;
    Evidence(requestedUrl, finalUrl, status, contentType, |Strip(content)|, sha(content), at, valid,
             if failure.Some? then failure
             else if valid then None
             else Some(FailureCode(status, contentType, content)))
  }

  /** Equal up to upper case on the left. */
  predicate SameLetters(s: string, t: string) {
    && |s| == |t|
    && forall i | 0 <= i < |s| :: s[i] == t[i] || ('A' <= s[i] <= 'Z' && s[i] as int + 32 == t[i] as int)
  }

  /** The content type is `base`, whatever its case, the space around it and the parameters after it. */
  ghost predicate Names(contentType: string, base: string) {
    exists n: nat ::
      && EndsType(contentType, n)
      && SameLetters(Strip(contentType[..n]), base)
  }

  /** The media type is what comes before the first semicolon. */
  predicate EndsType(contentType: string, n: nat) {
    && n <= |contentType| && ';' !in contentType[..n]
    && (n == |contentType| || contentType[n] == ';')
  }

  ghost predicate Supported(contentType: string) {
    || contentType == ""
    || Names(contentType, "text/html")
    || Names(contentType, "application/xhtml+xml")
    || Names(contentType, "text/plain")
  }

  lemma {:induction false} LowerIsSameLetters(s: string, t: string)
    requires forall i | 0 <= i < |t| :: !('A' <= t[i] <= 'Z')
    ensures Lower(s) == t <==> SameLetters(s, t)
  {
    if s != [] && t != [] {
      LowerIsSameLetters(s[1..], t[1..]);
      assert Lower(s) == t <==> Lower(s)[0] == t[0] && Lower(s)[1..] == t[1..];
      assert SameLetters(s, t) <==> SameLetters(s[..1], t[..1]) && SameLetters(s[1..], t[1..]);
    }
  }

  lemma {:induction false} BeforeSemicolonEnds(s: string)
    ensures EndsType(s, |BeforeSemicolon(s)|) && BeforeSemicolon(s) == s[..|BeforeSemicolon(s)|]
    ensures forall n: nat | EndsType(s, n) :: n == |BeforeSemicolon(s)|
  {
    if s != [] && s[0] != ';' {
      var rest := BeforeSemicolon(s[1..]);
      BeforeSemicolonEnds(s[1..]);
      assert s[..1 + |rest|] == [s[0]] + s[1..][..|rest|];
      forall n: nat | EndsType(s, n) ensures n == 1 + |rest| {
        assert n > 0 && s[..n] == [s[0]] + s[1..][..n - 1];
        assert EndsType(s[1..], n - 1);
      }
    } else if s != [] {
      forall n: nat | 0 < n <= |s| ensures s[0] in s[..n] {
        assert s[..n][0] == s[0];
      }
    }
  }

  lemma NamesExactly(contentType: string, base: string)
    requires forall i | 0 <= i < |base| :: !('A' <= base[i] <= 'Z')
    ensures Lower(Strip(BeforeSemicolon(contentType))) == base <==> Names(contentType, base)
  {
    BeforeSemicolonEnds(contentType);
    LowerIsSameLetters(Strip(BeforeSemicolon(contentType)), base);
  }

  lemma SupportedExactly(contentType: string)
    ensures IsSupportedContentType(contentType) <==> Supported(contentType)
  {
    NamesExactly(contentType, "text/html");
    NamesExactly(contentType, "application/xhtml+xml");
    NamesExactly(contentType, "text/plain");
  }

  /** Why a response is no evidence, by the first of the checks it fails. */
  ghost predicate Fails(status: Option<int>, contentType: string, content: string, code: string) {
    if status.None? then code == "missing_status_code"
    else if status.value < 200 || status.value > 299 then code == "http_status_not_success"
    else if !Supported(contentType) then code == "unsupported_content_type"
    else |Strip(content)| < 120 && code == "content_too_short"
  }

  /** Evidence is valid if and only if no failure was given, the status is 200 to 299, the content type is
      HTML, XHTML or plain text, and 120 characters are left once the content is stripped; otherwise it
      carries the given failure or the first check that fails. The rest of it is what was observed. */
  lemma EvidenceIsJustified(
    sha: string -> Digest, requestedUrl: string, finalUrl: string, status: Option<int>, contentType: string,
    content: string, at: int, failure: Option<string>)
    ensures var e := FromContent(sha, requestedUrl, finalUrl, status, contentType, content, at, failure);
      && (e.valid <==>
            && failure.None? && status.Some? && 200 <= status.value <= 299
            && Supported(contentType) && |Strip(content)| >= 120)
      && (e.valid <==> e.failureCode == None)
      && (failure.Some? ==> e.failureCode == failure)
      && (failure.None? && !e.valid ==> Fails(status, contentType, content, e.failureCode.value))
      && e.requestedUrl == requestedUrl && e.finalUrl == finalUrl && e.statusCode == status
      && e.contentType == contentType && e.contentLength == |Strip(content)|
      && e.sha256 == sha(content) && e.retrievedAt == at
  {
    SupportedExactly(contentType);
  }

  // ----- What can be audited -----

  predicate IsWebUrl(url: string) {
    "http://" <= url || "https://" <= url
  }

  function ValidLengths(pages: seq<Page>): seq<nat> {
    if pages == [] then []
    else
      var n := |Strip(pages[0].content)|;
      (if IsWebUrl(pages[0].url) && n >= MIN_AUDIT_PAGE_CHARS then [n] else []) + ValidLengths(pages[1..])
  }

  function Total(lengths: seq<nat>): nat {
    if lengths == [] then 0 else lengths[0] + Total(lengths[1..])
  }

  /** `ensure_auditable_pages`: the error it raises, if any. */
  function AuditObjection(pages: seq<Page>): Option<string> {
    if pages == [] then Some("crawl_pages_empty")
    else if ValidLengths(pages) == [] then Some("no_valid_page_evidence")
    else if Total(ValidLengths(pages)) < MIN_AUDIT_TOTAL_CHARS then Some("insufficient_total_content")
    else None
  }

  predicate IsAuditable(r: CrawlResult) {
    && (r.status.Success? || r.status.Partial?)
    && AuditObjection(r.pages).None?
    && exists e :: e in r.evidence && e.valid
  }

  /** A page of the web with at least 120 characters once stripped. */
  ghost predicate CountsTowards(p: Page, atLeast: nat) {
    ("http://" <= p.url || "https://" <= p.url) && |Strip(p.content)| >= atLeast
  }

  /** One page of 200 characters, or two of 120. */
  ghost predicate EnoughContent(pages: seq<Page>) {
    || (exists i :: 0 <= i < |pages| && CountsTowards(pages[i], 200))
    || (exists i, j :: 0 <= i < j < |pages| && CountsTowards(pages[i], 120) && CountsTowards(pages[j], 120))
  }

  /** What counts adds up to 120 with one page and to 240 with two. */
  lemma {:induction false} LengthsCount(pages: seq<Page>)
    ensures ValidLengths(pages) == [] <==> forall i | 0 <= i < |pages| :: !CountsTowards(pages[i], 120)
    ensures ValidLengths(pages) != [] ==> Total(ValidLengths(pages)) >= 120
    ensures Total(ValidLengths(pages)) >= 200 <==> EnoughContent(pages)
  {
    if pages != [] {
      var rest := pages[1..];
      LengthsCount(rest);
      EnoughWithFirst(pages);
      if CountsTowards(pages[0], 120) {
        assert ValidLengths(pages) == [|Strip(pages[0].content)|] + ValidLengths(rest);
        assert ([|Strip(pages[0].content)|] + ValidLengths(rest))[1..] == ValidLengths(rest);
      } else {
        assert ValidLengths(pages) == [] + ValidLengths(rest) == ValidLengths(rest);
      }
    }
  }

  lemma EnoughWithFirst(pages: seq<Page>)
    requires pages != []
    ensures var rest := pages[1..];
      EnoughContent(pages) <==>
        || EnoughContent(rest) || CountsTowards(pages[0], 200)
        || (CountsTowards(pages[0], 120) && exists i :: 0 <= i < |rest| && CountsTowards(rest[i], 120))
  {
    var p, rest := pages[0], pages[1..];
    assert forall i | 0 < i < |pages| :: pages[i] == rest[i - 1];
    assert forall i | 0 <= i < |rest| :: rest[i] == pages[i + 1];
    if i, j :| 0 <= i < j < |pages| && CountsTowards(pages[i], 120) && CountsTowards(pages[j], 120) {
      assert CountsTowards(rest[j - 1], 120);
    }
    if i :| 0 <= i < |pages| && CountsTowards(pages[i], 200) {
      assert i > 0 ==> CountsTowards(rest[i - 1], 200);
    }
  }

  /** Pages can be audited if and only if one of them has 200 characters or two have 120; what is missing
      otherwise is named. */
  lemma AuditableExactly(pages: seq<Page>)
    ensures AuditObjection(pages).None? <==> EnoughContent(pages)
    ensures AuditObjection(pages) == Some("crawl_pages_empty") <==> pages == []
    ensures AuditObjection(pages) == Some("no_valid_page_evidence") <==>
      pages != [] && forall i | 0 <= i < |pages| :: !CountsTowards(pages[i], 120)
  {
    LengthsCount(pages);
  }

  // ----- The state the loop builds -----

  function IndexOf(pages: seq<Page>, url: string): (i: nat)
    ensures i <= |pages| && (i < |pages| ==> pages[i].url == url)
    ensures forall k | 0 <= k < i :: pages[k].url != url
  {
    if pages == [] || pages[0].url == url then 0 else 1 + IndexOf(pages[1..], url)
  }

  /** `pages[url] = content`. */
  function PutPage(pages: seq<Page>, url: string, content: string): seq<Page> {
    var i := IndexOf(pages, url);
    if i < |pages| then pages[i := Page(url, content)] else pages + [Page(url, content)]
  }

  function Stamp(found: seq<(string, real)>, url: string, at: int, sha256: Digest): seq<Contact> {
    if found == [] then []
    else [Contact(found[0].0, url, at, sha256, found[0].1)] + Stamp(found[1..], url, at, sha256)
  }

  function MergeOne(target: map<string, Contact>, c: Contact): map<string, Contact> {
    if c.value !in target || c.confidence > target[c.value].confidence then target[c.value := c] else target
  }

  function Merge(target: map<string, Contact>, contacts: seq<Contact>): map<string, Contact> {
    if contacts == [] then target
    else MergeOne(Merge(target, contacts[..|contacts| - 1]), contacts[|contacts| - 1])
  }

  // ----- Coherence -----

  ghost predicate Supports(evidence: seq<Evidence>, e: Evidence, url: string, sha256: Digest) {
    e in evidence && e.valid && e.finalUrl == url && e.sha256 == sha256
  }

  ghost predicate PageSupported(sha: string -> Digest, evidence: seq<Evidence>, p: Page) {
    exists e :: Supports(evidence, e, p.url, sha(p.content))
  }

  ghost predicate ContactSupported(evidence: seq<Evidence>, c: Contact) {
    exists e :: Supports(evidence, e, c.sourceUrl, c.sha256) && e.retrievedAt == c.collectedAt
  }

  ghost predicate AllSupported(evidence: seq<Evidence>, contacts: seq<Contact>) {
    forall c | c in contacts :: ContactSupported(evidence, c)
  }

  /** One page per URL, each backed by a valid evidence item of the same final URL and digest; each
      valid item has its page; each contact cites a valid item. */
  ghost predicate Coherent(sha: string -> Digest, s: CrawlResult) {
    CoherentParts(sha, s.pages, s.evidence, s.contacts)
  }

  ghost predicate CoherentParts(
    sha: string -> Digest, pages: seq<Page>, evidence: seq<Evidence>, contacts: map<string, Contact>)
  {
    && (forall i, j | 0 <= i < j < |pages| :: pages[i].url != pages[j].url)
    && (forall i | 0 <= i < |pages| :: PageSupported(sha, evidence, pages[i]))
    && (forall e | e in evidence && e.valid :: IndexOf(pages, e.finalUrl) < |pages|)
    && (forall v | v in contacts :: contacts[v].value == v && ContactSupported(evidence, contacts[v]))
  }

  lemma MoreEvidence(sha: string -> Digest, s: CrawlResult, e: Evidence)
    requires Coherent(sha, s) && !e.valid
    ensures Coherent(sha, s.(evidence := s.evidence + [e]))
  {
    var next := s.(evidence := s.evidence + [e]);
    forall i | 0 <= i < |s.pages| ensures PageSupported(sha, next.evidence, s.pages[i]) {
      PageSupportGrows(sha, s.evidence, e, s.pages[i]);
    }
    forall v | v in s.contacts ensures ContactSupported(next.evidence, s.contacts[v]) {
      SupportGrows(s.evidence, e, s.contacts[v]);
    }
  }

  lemma SupportGrows(evidence: seq<Evidence>, e: Evidence, c: Contact)
    requires ContactSupported(evidence, c)
    ensures ContactSupported(evidence + [e], c)
  {
    var w :| Supports(evidence, w, c.sourceUrl, c.sha256) && w.retrievedAt == c.collectedAt;
    assert Supports(evidence + [e], w, c.sourceUrl, c.sha256);
  }

  lemma PageSupportGrows(sha: string -> Digest, evidence: seq<Evidence>, e: Evidence, p: Page)
    requires PageSupported(sha, evidence, p) || (e.valid && p.url == e.finalUrl && sha(p.content) == e.sha256)
    ensures PageSupported(sha, evidence + [e], p)
  {
    if PageSupported(sha, evidence, p) {
      var w :| Supports(evidence, w, p.url, sha(p.content));
      assert Supports(evidence + [e], w, p.url, sha(p.content));
    } else {
      assert Supports(evidence + [e], e, p.url, sha(p.content));
    }
  }

  lemma HasPage(pages: seq<Page>, url: string, k: nat)
    requires k < |pages| && pages[k].url == url
    ensures IndexOf(pages, url) < |pages|
  {
  }

  /** A stored page keeps the URLs of the others and has its own. */
  lemma PagePut(pages: seq<Page>, url: string, content: string, other: string)
    requires other == url || IndexOf(pages, other) < |pages|
    ensures IndexOf(PutPage(pages, url, content), other) < |PutPage(pages, url, content)|
  {
    HasPage(PutPage(pages, url, content), other, if other == url then IndexOf(pages, url) else IndexOf(pages, other));
  }

  lemma PutKeepsUrlsDistinct(pages: seq<Page>, url: string, content: string)
    requires forall i, j | 0 <= i < j < |pages| :: pages[i].url != pages[j].url
    ensures var after := PutPage(pages, url, content);
      forall i, j | 0 <= i < j < |after| :: after[i].url != after[j].url
  {
  }

  lemma PutKeepsSupport(
    sha: string -> Digest, pages: seq<Page>, evidence: seq<Evidence>, e: Evidence, content: string)
    requires forall i | 0 <= i < |pages| :: PageSupported(sha, evidence, pages[i])
    requires e.valid && e.sha256 == sha(content)
    ensures var after := PutPage(pages, e.finalUrl, content);
      forall i | 0 <= i < |after| :: PageSupported(sha, evidence + [e], after[i])
  {
    var after := PutPage(pages, e.finalUrl, content);
    forall i | 0 <= i < |after| ensures PageSupported(sha, evidence + [e], after[i]) {
      PageSupportGrows(sha, evidence, e, after[i]);
    }
  }

  lemma PutCoversEvidence(pages: seq<Page>, evidence: seq<Evidence>, e: Evidence, content: string)
    requires forall w | w in evidence && w.valid :: IndexOf(pages, w.finalUrl) < |pages|
    ensures var after := PutPage(pages, e.finalUrl, content);
      forall w | w in evidence + [e] && w.valid :: IndexOf(after, w.finalUrl) < |after|
  {
    var after := PutPage(pages, e.finalUrl, content);
    forall w | w in evidence + [e] && w.valid ensures IndexOf(after, w.finalUrl) < |after| {
      PagePut(pages, e.finalUrl, content, w.finalUrl);
    }
  }

  lemma ContactsStaySupported(contacts: map<string, Contact>, evidence: seq<Evidence>, e: Evidence)
    requires forall v | v in contacts :: contacts[v].value == v && ContactSupported(evidence, contacts[v])
    ensures forall v | v in contacts :: contacts[v].value == v && ContactSupported(evidence + [e], contacts[v])
  {
    forall v | v in contacts ensures ContactSupported(evidence + [e], contacts[v]) {
      SupportGrows(evidence, e, contacts[v]);
    }
  }

  lemma AddPageCoherent(sha: string -> Digest, s: CrawlResult, e: Evidence, content: string)
    requires Coherent(sha, s) && e.valid && e.sha256 == sha(content)
    ensures Coherent(sha, s.(evidence := s.evidence + [e], pages := PutPage(s.pages, e.finalUrl, content)))
  {
    PutKeepsUrlsDistinct(s.pages, e.finalUrl, content);
    PutKeepsSupport(sha, s.pages, s.evidence, e, content);
    PutCoversEvidence(s.pages, s.evidence, e, content);
    ContactsStaySupported(s.contacts, s.evidence, e);
  }

  lemma {:induction false} MergeCoherent(sha: string -> Digest, s: CrawlResult, contacts: seq<Contact>)
    requires Coherent(sha, s) && AllSupported(s.evidence, contacts)
    ensures Coherent(sha, s.(contacts := Merge(s.contacts, contacts)))
    decreases |contacts|
  {
    if contacts != [] {
      MergeCoherent(sha, s, contacts[..|contacts| - 1]);
    }
  }

  lemma {:induction false} StampIsSupported(
    found: seq<(string, real)>, evidence: seq<Evidence>, e: Evidence)
    requires e in evidence && e.valid
    ensures AllSupported(evidence, Stamp(found, e.finalUrl, e.retrievedAt, e.sha256))
  {
    if found != [] {
      StampIsSupported(found[1..], evidence, e);
      var first := Contact(found[0].0, e.finalUrl, e.retrievedAt, e.sha256, found[0].1);
      assert Supports(evidence, e, first.sourceUrl, first.sha256);
      assert ContactSupported(evidence, first);
    }
  }

  // ----- One page, and the loop over the pages -----

  function Complain(sha: string -> Digest, s: CrawlResult, url: string, status: Option<int>, contentType: string,
                    at: int, failure: string): CrawlResult {
    s.(evidence := s.evidence + [FromContent(sha, url, url, status, contentType, "", at, Some(failure))])
  }

  function PageEvidence(sha: string -> Digest, url: string, fetch: Fetch): Evidence
    requires fetch.Fetched? && fetch.finalUrl.Some?
  {
    FromContent(sha, url, fetch.finalUrl.value, fetch.status, fetch.contentType, CleanWhitespace(fetch.text),
                fetch.at, None)
  }

  /** The state after one internal page; `true` when it counts towards the page budget. */
  function Visit(sha: string -> Digest, s: CrawlResult, url: string, fetch: Fetch): (CrawlResult, bool) {
    match fetch
    case Raises(at) => (Complain(sha, s, url, None, "", at, "page_exception"), false)
    case Unsuccessful(status, contentType, at) =>
      (Complain(sha, s, url, status, contentType, at, "page_fetch_failed"), false)
    case Fetched(finalUrl, text, status, contentType, at, found) =>
      if finalUrl.None? then (Complain(sha, s, url, None, "", at, "page_exception"), false)
      else
        var e := PageEvidence(sha, url, fetch);
        var seen := s.(evidence := s.evidence + [e]);
        if !e.valid then (seen, false)
        else
          var stored := seen.(pages := PutPage(seen.pages, e.finalUrl, CleanWhitespace(text)));
          if found.None? then (Complain(sha, stored, url, None, "", at, "page_exception"), false)
          else
            (stored.(contacts := Merge(stored.contacts, Stamp(found.value, e.finalUrl, e.retrievedAt, e.sha256))), true)
  }

  /** The pages from the k-th link on, `crawled` of the budget being used up. */
  function VisitAll(
    sha: string -> Digest, s: CrawlResult, links: seq<string>, fetches: nat -> Fetch, k: nat, crawled: nat,
    maxPages: int)
    : CrawlResult
    decreases |links| - k
  {
    if k >= |links| || crawled >= maxPages then s
    else
      var visit := Visit(sha, s, links[k], fetches(k));
      VisitAll(sha, visit.0, links, fetches, k + 1, if visit.1 then crawled + 1 else crawled, maxPages)
  }

  lemma FindingsCoherent(sha: string -> Digest, stored: CrawlResult, e: Evidence, found: seq<(string, real)>)
    requires Coherent(sha, stored) && e in stored.evidence && e.valid
    ensures Coherent(sha, stored.(contacts :=
      Merge(stored.contacts, Stamp(found, e.finalUrl, e.retrievedAt, e.sha256))))
  {
    StampIsSupported(found, stored.evidence, e);
    MergeCoherent(sha, stored, Stamp(found, e.finalUrl, e.retrievedAt, e.sha256));
  }

  lemma VisitCoherent(sha: string -> Digest, s: CrawlResult, url: string, fetch: Fetch)
    requires Coherent(sha, s)
    ensures Coherent(sha, Visit(sha, s, url, fetch).0)
  {
    if fetch.Fetched? && fetch.finalUrl.Some? && PageEvidence(sha, url, fetch).valid {
      var e := PageEvidence(sha, url, fetch);
      var content := CleanWhitespace(fetch.text);
      var stored := s.(evidence := s.evidence + [e], pages := PutPage(s.pages, e.finalUrl, content));
      AddPageCoherent(sha, s, e, CleanWhitespace(fetch.text));
      if fetch.found.None? {
        MoreEvidence(sha, stored, FromContent(sha, url, url, None, "", "", fetch.at, Some("page_exception")));
      } else {
        FindingsCoherent(sha, stored, e, fetch.found.value);
      }
    } else {
      MoreEvidence(sha, s, Visit(sha, s, url, fetch).0.evidence[|s.evidence|]);
    }
  }

  lemma {:induction false} VisitAllCoherent(
    sha: string -> Digest, s: CrawlResult, links: seq<string>, fetches: nat -> Fetch, k: nat, crawled: nat,
    maxPages: int)
    requires Coherent(sha, s)
    ensures Coherent(sha, VisitAll(sha, s, links, fetches, k, crawled, maxPages))
    decreases |links| - k
  {
    if k < |links| && crawled < maxPages {
      var (next, counted) := Visit(sha, s, links[k], fetches(k));
      VisitCoherent(sha, s, links[k], fetches(k));
      VisitAllCoherent(sha, next, links, fetches, k + 1, if counted then crawled + 1 else crawled, maxPages);
    }
  }

  // ----- Nothing found is lost -----

  ghost predicate AtLeast(contacts: map<string, Contact>, value: string, confidence: real) {
    value in contacts && contacts[value].confidence >= confidence
  }

  lemma MergeOneKeeps(target: map<string, Contact>, c: Contact, value: string, confidence: real)
    ensures AtLeast(target, value, confidence) ==> AtLeast(MergeOne(target, c), value, confidence)
    ensures AtLeast(MergeOne(target, c), c.value, c.confidence)
  {
  }

  lemma {:induction false} MergeKeepsTarget(
    target: map<string, Contact>, contacts: seq<Contact>, value: string, confidence: real)
    requires AtLeast(target, value, confidence)
    ensures AtLeast(Merge(target, contacts), value, confidence)
    decreases |contacts|
  {
    if contacts != [] {
      var front, last := contacts[..|contacts| - 1], contacts[|contacts| - 1];
      MergeKeepsTarget(target, front, value, confidence);
      MergeOneKeeps(Merge(target, front), last, value, confidence);
    }
  }

  lemma {:induction false} MergeKeepsContact(target: map<string, Contact>, contacts: seq<Contact>, i: nat)
    requires i < |contacts|
    ensures AtLeast(Merge(target, contacts), contacts[i].value, contacts[i].confidence)
    decreases |contacts|
  {
    var front, last := contacts[..|contacts| - 1], contacts[|contacts| - 1];
    if i < |front| {
      MergeKeepsContact(target, front, i);
    }
    MergeOneKeeps(Merge(target, front), last, contacts[i].value, contacts[i].confidence);
  }

  lemma {:induction false} MergedComesFrom(target: map<string, Contact>, contacts: seq<Contact>, value: string)
    requires value in Merge(target, contacts)
    ensures var kept := Merge(target, contacts)[value];
      (value in target && kept == target[value]) || kept in contacts
    decreases |contacts|
  {
    if contacts != [] {
      var front, last := contacts[..|contacts| - 1], contacts[|contacts| - 1];
      if Merge(target, contacts)[value] != last {
        MergedComesFrom(target, front, value);
      }
    }
  }

  /** Merging keeps, for each address, one of the contacts with the highest confidence. */
  lemma MergeKeepsTheBest(target: map<string, Contact>, contacts: seq<Contact>)
    ensures var merged := Merge(target, contacts);
      && (forall c | c in contacts :: AtLeast(merged, c.value, c.confidence))
      && (forall v | v in target :: AtLeast(merged, v, target[v].confidence))
      && (forall v | v in merged :: (v in target && merged[v] == target[v]) || merged[v] in contacts)
  {
    var merged := Merge(target, contacts);
    forall c | c in contacts ensures AtLeast(merged, c.value, c.confidence) {
      var i :| 0 <= i < |contacts| && contacts[i] == c;
      MergeKeepsContact(target, contacts, i);
    }
    forall v | v in target ensures AtLeast(merged, v, target[v].confidence) {
      MergeKeepsTarget(target, contacts, v, target[v].confidence);
    }
    forall v | v in merged ensures (v in target && merged[v] == target[v]) || merged[v] in contacts {
      MergedComesFrom(target, contacts, v);
    }
  }

  lemma {:induction false} StampKeepsFindings(found: seq<(string, real)>, url: string, at: int, sha256: Digest)
    ensures forall f | f in found :: Contact(f.0, url, at, sha256, f.1) in Stamp(found, url, at, sha256)
  {
    if found != [] {
      StampKeepsFindings(found[1..], url, at, sha256);
    }
  }

  /** A visit forgets no evidence and lowers no confidence; a page that counts has all its findings kept. */
  lemma VisitKeeps(sha: string -> Digest, s: CrawlResult, url: string, fetch: Fetch)
    ensures var (next, counted) := Visit(sha, s, url, fetch);
      && s.evidence < next.evidence && next.evidence[|s.evidence|].requestedUrl == url && next.url == s.url
      && (forall v | v in s.contacts :: AtLeast(next.contacts, v, s.contacts[v].confidence))
      && (counted ==> fetch.Fetched? && fetch.found.Some?
                      && forall f | f in fetch.found.value :: AtLeast(next.contacts, f.0, f.1))
  {
    if Visit(sha, s, url, fetch).1 {
      var e := PageEvidence(sha, url, fetch);
      StampKeepsFindings(fetch.found.value, e.finalUrl, e.retrievedAt, e.sha256);
      MergeKeepsTheBest(s.contacts, Stamp(fetch.found.value, e.finalUrl, e.retrievedAt, e.sha256));
    }
  }

  /** How many links the loop fetches. */
  function Visited(
    sha: string -> Digest, s: CrawlResult, links: seq<string>, fetches: nat -> Fetch, k: nat, crawled: nat,
    maxPages: int)
    : (fetched: nat)
    ensures k <= |links| ==> fetched <= |links| - k
    ensures crawled >= maxPages ==> fetched == 0
    decreases |links| - k
  {
    if k >= |links| || crawled >= maxPages then 0
    else
      var visit := Visit(sha, s, links[k], fetches(k));
      1 + Visited(sha, visit.0, links, fetches, k + 1, if visit.1 then crawled + 1 else crawled, maxPages)
  }

  /** Every fetched link has its own evidence, in order, and everything already known is kept. */
  lemma {:induction false} EveryVisitLeavesEvidence(
    sha: string -> Digest, s: CrawlResult, links: seq<string>, fetches: nat -> Fetch, k: nat, crawled: nat,
    maxPages: int,
    i: nat)
    requires k <= i < k + Visited(sha, s, links, fetches, k, crawled, maxPages)
    ensures i < |links|
    ensures exists e ::
      e in VisitAll(sha, s, links, fetches, k, crawled, maxPages).evidence && e.requestedUrl == links[i]
    decreases |links| - k
  {
    var (next, counted) := Visit(sha, s, links[k], fetches(k));
    var more := if counted then crawled + 1 else crawled;
    VisitKeeps(sha, s, links[k], fetches(k));
    if i > k {
      EveryVisitLeavesEvidence(sha, next, links, fetches, k + 1, more, maxPages, i);
    } else {
      VisitAllKeeps(sha, next, links, fetches, k + 1, more, maxPages);
      var e := next.evidence[|s.evidence|];
      assert e in VisitAll(sha, next, links, fetches, k + 1, more, maxPages).evidence;
    }
  }

  lemma {:induction false} VisitAllKeeps(
    sha: string -> Digest, s: CrawlResult, links: seq<string>, fetches: nat -> Fetch, k: nat, crawled: nat,
    maxPages: int)
    ensures var done := VisitAll(sha, s, links, fetches, k, crawled, maxPages);
      && s.evidence <= done.evidence && done.url == s.url
      && forall v | v in s.contacts :: AtLeast(done.contacts, v, s.contacts[v].confidence)
    decreases |links| - k
  {
    if k < |links| && crawled < maxPages {
      var (next, counted) := Visit(sha, s, links[k], fetches(k));
      VisitKeeps(sha, s, links[k], fetches(k));
      VisitAllKeeps(sha, next, links, fetches, k + 1, if counted then crawled + 1 else crawled, maxPages);
    }
  }

  // ----- Where the pages come from -----

  /** The fetch ends at the page's URL with its cleaned text, which is evidence for an audit. */
  ghost predicate Serves(fetch: Fetch, p: Page) {
    && fetch.Fetched? && fetch.finalUrl == Some(p.url) && p.content == CleanWhitespace(fetch.text)
    && fetch.status.Some? && 200 <= fetch.status.value <= 299
    && Supported(fetch.contentType) && |Strip(p.content)| >= 120
  }

  ghost predicate ServesUrl(fetch: Fetch, url: string) {
    fetch.Fetched? && Serves(fetch, Page(url, CleanWhitespace(fetch.text)))
  }

  lemma ServingIsValid(sha: string -> Digest, url: string, fetch: Fetch)
    requires fetch.Fetched? && fetch.finalUrl.Some?
    ensures PageEvidence(sha, url, fetch).valid <==> ServesUrl(fetch, fetch.finalUrl.value)
  {
    EvidenceIsJustified(
      sha, url, fetch.finalUrl.value, fetch.status, fetch.contentType, CleanWhitespace(fetch.text), fetch.at, None);
  }

  ghost predicate DistinctUrls(pages: seq<Page>) {
    forall i, j | 0 <= i < j < |pages| :: pages[i].url != pages[j].url
  }

  lemma PutPageExactly(pages: seq<Page>, url: string, content: string, p: Page)
    requires DistinctUrls(pages)
    ensures DistinctUrls(PutPage(pages, url, content))
    ensures p in PutPage(pages, url, content) <==> p == Page(url, content) || (p in pages && p.url != url)
  {
    var i, after := IndexOf(pages, url), PutPage(pages, url, content);
    assert after[i] == Page(url, content);
    if p in pages && p.url != url {
      var k :| 0 <= k < |pages| && pages[k] == p;
      assert after[k] == p;
    }
  }

  ghost predicate LastToServe(fetches: nat -> Fetch, k: nat, end: nat, p: Page, i: nat) {
    && k <= i < end && Serves(fetches(i), p)
    && forall j: nat | i < j < end :: !ServesUrl(fetches(j), p.url)
  }

  ghost predicate Served(fetches: nat -> Fetch, k: nat, end: nat, p: Page) {
    exists i: nat :: LastToServe(fetches, k, end, p, i)
  }

  ghost predicate ServedAgain(fetches: nat -> Fetch, k: nat, end: nat, url: string) {
    exists j: nat :: k <= j < end && ServesUrl(fetches(j), url)
  }

  /** A fetch served the page and no later one its URL, or it was there and no fetch served its URL. */
  ghost predicate Stands(pages: seq<Page>, fetches: nat -> Fetch, k: nat, end: nat, p: Page) {
    Served(fetches, k, end, p) || (p in pages && !ServedAgain(fetches, k, end, p.url))
  }

  /** The pages once a fetch has been visited, and once several have. */
  ghost function Stored(pages: seq<Page>, fetch: Fetch): seq<Page> {
    if fetch.Fetched? && fetch.finalUrl.Some? && ServesUrl(fetch, fetch.finalUrl.value)
    then PutPage(pages, fetch.finalUrl.value, CleanWhitespace(fetch.text)) else pages
  }

  function Fold(
    store: (seq<Page>, Fetch) -> seq<Page>, pages: seq<Page>, fetches: nat -> Fetch, k: nat, end: nat): seq<Page>
    requires k <= end
    decreases end - k
  {
    if k == end then pages else Fold(store, store(pages, fetches(k)), fetches, k + 1, end)
  }

  lemma VisitStep(
    sha: string -> Digest, s: CrawlResult, links: seq<string>, fetches: nat -> Fetch, k: nat, crawled: nat,
    maxPages: int)
    requires k < |links| && crawled < maxPages
    ensures var visit := Visit(sha, s, links[k], fetches(k));
      var more := if visit.1 then crawled + 1 else crawled;
      && VisitAll(sha, s, links, fetches, k, crawled, maxPages)
         == VisitAll(sha, visit.0, links, fetches, k + 1, more, maxPages)
      && Visited(sha, s, links, fetches, k, crawled, maxPages)
         == 1 + Visited(sha, visit.0, links, fetches, k + 1, more, maxPages)
  {
  }

  lemma FoldStep(
    store: (seq<Page>, Fetch) -> seq<Page>, pages: seq<Page>, next: seq<Page>, fetches: nat -> Fetch, k: nat, end: nat)
    requires k < end && next == store(pages, fetches(k))
    ensures Fold(store, pages, fetches, k, end) == Fold(store, next, fetches, k + 1, end)
  {
  }

  lemma VisitStores(sha: string -> Digest, s: CrawlResult, url: string, fetch: Fetch)
    ensures Visit(sha, s, url, fetch).0.pages == Stored(s.pages, fetch)
  {
    if fetch.Fetched? && fetch.finalUrl.Some? {
      ServingIsValid(sha, url, fetch);
    }
  }

  /** A visit does to the pages what `store` does. */
  ghost predicate StoresAlike(sha: string -> Digest, store: (seq<Page>, Fetch) -> seq<Page>) {
    forall s: CrawlResult, url: string, fetch: Fetch ::
      Visit(sha, s, url, fetch).0.pages == store(s.pages, fetch)
  }

  lemma {:induction false} VisitAllFolds(
    sha: string -> Digest, s: CrawlResult, links: seq<string>, fetches: nat -> Fetch, k: nat, crawled: nat,
    maxPages: int, store: (seq<Page>, Fetch) -> seq<Page>, end: nat)
    requires StoresAlike(sha, store) && end == k + Visited(sha, s, links, fetches, k, crawled, maxPages)
    ensures VisitAll(sha, s, links, fetches, k, crawled, maxPages).pages == Fold(store, s.pages, fetches, k, end)
    decreases |links| - k
  {
    if k < |links| && crawled < maxPages {
      var visit := Visit(sha, s, links[k], fetches(k));
      var more := if visit.1 then crawled + 1 else crawled;
      VisitStep(sha, s, links, fetches, k, crawled, maxPages);
      VisitAllFolds(sha, visit.0, links, fetches, k + 1, more, maxPages, store, end);
      FoldStep(store, s.pages, visit.0.pages, fetches, k, end);
    } else {
      assert VisitAll(sha, s, links, fetches, k, crawled, maxPages) == s;
    }
  }

  lemma EveryVisitStores(sha: string -> Digest)
    ensures StoresAlike(sha, Stored)
  {
    forall s: CrawlResult, url: string, fetch: Fetch
      ensures Visit(sha, s, url, fetch).0.pages == Stored(s.pages, fetch)
    {
      VisitStores(sha, s, url, fetch);
    }
  }

  /** A fetch stores the page it serves, in place of an earlier one with its URL, and nothing else. */
  lemma StoresItsPage(pages: seq<Page>, fetch: Fetch, p: Page)
    requires DistinctUrls(pages)
    ensures DistinctUrls(Stored(pages, fetch))
    ensures p in Stored(pages, fetch) <==> Serves(fetch, p) || (p in pages && !ServesUrl(fetch, p.url))
  {
    if fetch.Fetched? && fetch.finalUrl.Some? {
      PutPageExactly(pages, fetch.finalUrl.value, CleanWhitespace(fetch.text), p);
    }
  }

  lemma {:induction false} StoredStand(pages: seq<Page>, fetches: nat -> Fetch, k: nat, end: nat, p: Page)
    requires k <= end && DistinctUrls(pages)
    ensures p in Fold(Stored, pages, fetches, k, end) <==> Stands(pages, fetches, k, end, p)
    decreases end - k
  {
    if k < end {
      StoresItsPage(pages, fetches(k), p);
      StoredStand(Stored(pages, fetches(k)), fetches, k + 1, end, p);
      StandsFromHere(pages, Stored(pages, fetches(k)), fetches, k, k + 1, end, p);
    }
  }

  lemma AllStand(pages: seq<Page>, fetches: nat -> Fetch, k: nat, end: nat)
    requires k <= end && DistinctUrls(pages)
    ensures forall p :: p in Fold(Stored, pages, fetches, k, end) <==> Stands(pages, fetches, k, end, p)
  {
    forall p ensures p in Fold(Stored, pages, fetches, k, end) <==> Stands(pages, fetches, k, end, p) {
      StoredStand(pages, fetches, k, end, p);
    }
  }

  /** The stored pages are those the fetches served, the last one for each URL, and the earlier ones whose URL
      no fetch served again. */
  lemma PagesAreServed(
    sha: string -> Digest, s: CrawlResult, links: seq<string>, fetches: nat -> Fetch, k: nat, crawled: nat,
    maxPages: int, end: nat, done: seq<Page>)
    requires DistinctUrls(s.pages) && end == k + Visited(sha, s, links, fetches, k, crawled, maxPages)
    requires done == VisitAll(sha, s, links, fetches, k, crawled, maxPages).pages
    ensures forall p :: p in done <==> Stands(s.pages, fetches, k, end, p)
  {
    EveryVisitStores(sha);
    VisitAllFolds(sha, s, links, fetches, k, crawled, maxPages, Stored, end);
    AllStand(s.pages, fetches, k, end);
  }

  lemma StandsFromHere(
    pages: seq<Page>, more: seq<Page>, fetches: nat -> Fetch, k: nat, next: nat, end: nat, p: Page)
    requires next == k + 1 <= end
    requires p in more <==> Serves(fetches(k), p) || (p in pages && !ServesUrl(fetches(k), p.url))
    ensures Stands(pages, fetches, k, end, p) <==> Stands(more, fetches, next, end, p)
  {
    AgainFromHere(fetches, k, next, end, p.url);
    ServedFromHere(fetches, k, next, end, p);
  }

  lemma AgainFromHere(fetches: nat -> Fetch, k: nat, next: nat, end: nat, url: string)
    requires next == k + 1 <= end
    ensures ServedAgain(fetches, k, end, url) <==>
      ServesUrl(fetches(k), url) || ServedAgain(fetches, next, end, url)
  {
    if j: nat :| k <= j < end && ServesUrl(fetches(j), url) {
      assert j == k || next <= j;
    }
  }

  lemma LastFromHere(fetches: nat -> Fetch, k: nat, next: nat, end: nat, p: Page, i: nat)
    requires next == k + 1 <= end
    ensures LastToServe(fetches, k, end, p, i) <==>
      || LastToServe(fetches, next, end, p, i)
      || (i == k && Serves(fetches(k), p) && !ServedAgain(fetches, next, end, p.url))
  {
  }

  lemma ServedFromHere(fetches: nat -> Fetch, k: nat, next: nat, end: nat, p: Page)
    requires next == k + 1 <= end
    ensures Served(fetches, k, end, p) <==>
      Served(fetches, next, end, p) || (Serves(fetches(k), p) && !ServedAgain(fetches, next, end, p.url))
  {
    LastFromHere(fetches, k, next, end, p, k);
    if i: nat :| LastToServe(fetches, next, end, p, i) {
      LastFromHere(fetches, k, next, end, p, i);
    }
    if i: nat :| LastToServe(fetches, k, end, p, i) {
      LastFromHere(fetches, k, next, end, p, i);
    }
  }

  /** Every visit leaves one evidence item, which says what came of it; a page whose contacts cannot be read
      leaves a complaint besides, and only a page that serves and can be read counts. */
  lemma VisitRecords(sha: string -> Digest, s: CrawlResult, url: string, fetch: Fetch)
    ensures var (next, counted) := Visit(sha, s, url, fetch);
      var n := |s.evidence|;
      var serves := fetch.Fetched? && fetch.finalUrl.Some? && ServesUrl(fetch, fetch.finalUrl.value);
      && (counted <==> serves && fetch.found.Some?)
      && |next.evidence| == n + (if serves && !counted then 2 else 1) && next.evidence[..n] == s.evidence
      && next.evidence[n].requestedUrl == url && next.evidence[n].retrievedAt == fetch.at
      && (next.evidence[n].valid <==> serves)
      && (fetch.Raises? || (fetch.Fetched? && fetch.finalUrl.None?) ==>
            next.evidence[n].failureCode == Some("page_exception"))
      && (fetch.Unsuccessful? ==>
            && next.evidence[n].failureCode == Some("page_fetch_failed")
            && next.evidence[n].statusCode == fetch.status && next.evidence[n].contentType == fetch.contentType)
      && (serves && !counted ==>
            !next.evidence[n + 1].valid && next.evidence[n + 1].failureCode == Some("page_exception"))
  {
    if fetch.Fetched? && fetch.finalUrl.Some? {
      ServingIsValid(sha, url, fetch);
    }
  }

  // ----- Where the contacts come from -----

  /** The contact was found on the page the fetch served, and cites it. */
  ghost predicate FoundOn(sha: string -> Digest, fetch: Fetch, c: Contact) {
    && ServesUrl(fetch, c.sourceUrl) && fetch.found.Some? && (c.value, c.confidence) in fetch.found.value
    && c.sha256 == sha(CleanWhitespace(fetch.text)) && c.collectedAt == fetch.at
  }

  lemma {:induction false} StampIsExact(
    found: seq<(string, real)>, url: string, at: int, sha256: Digest, c: Contact)
    ensures c in Stamp(found, url, at, sha256) <==>
      (c.value, c.confidence) in found && c.sourceUrl == url && c.collectedAt == at && c.sha256 == sha256
  {
    if found != [] {
      StampIsExact(found[1..], url, at, sha256, c);
      assert (c.value, c.confidence) in found <==>
        (c.value, c.confidence) == found[0] || (c.value, c.confidence) in found[1..];
    }
  }

  lemma VisitFindsContacts(sha: string -> Digest, s: CrawlResult, url: string, fetch: Fetch, v: string)
    requires v in Visit(sha, s, url, fetch).0.contacts
    ensures var c := Visit(sha, s, url, fetch).0.contacts[v];
      (v in s.contacts && c == s.contacts[v]) || FoundOn(sha, fetch, c)
  {
    if fetch.Fetched? && fetch.finalUrl.Some? && fetch.found.Some? {
      var e := PageEvidence(sha, url, fetch);
      ServingIsValid(sha, url, fetch);
      if e.valid {
        var stamped := Stamp(fetch.found.value, e.finalUrl, e.retrievedAt, e.sha256);
        MergedComesFrom(s.contacts, stamped, v);
        StampIsExact(fetch.found.value, e.finalUrl, e.retrievedAt, e.sha256, Merge(s.contacts, stamped)[v]);
      }
    }
  }

  /** Every contact was found on a page that was served, and the best one found for its address is kept. */
  lemma {:induction false} ContactsAreFound(
    sha: string -> Digest, s: CrawlResult, links: seq<string>, fetches: nat -> Fetch, k: nat, crawled: nat,
    maxPages: int, v: string)
    requires v in VisitAll(sha, s, links, fetches, k, crawled, maxPages).contacts
    ensures var end := k + Visited(sha, s, links, fetches, k, crawled, maxPages);
      var c := VisitAll(sha, s, links, fetches, k, crawled, maxPages).contacts[v];
      || (v in s.contacts && c == s.contacts[v])
      || exists i: nat :: k <= i < end && FoundOn(sha, fetches(i), c)
    decreases |links| - k
  {
    if k < |links| && crawled < maxPages {
      var visit := Visit(sha, s, links[k], fetches(k));
      var more := if visit.1 then crawled + 1 else crawled;
      ContactsAreFound(sha, visit.0, links, fetches, k + 1, more, maxPages, v);
      if v in visit.0.contacts {
        VisitFindsContacts(sha, s, links[k], fetches(k), v);
      }
    }
  }

  lemma VisitKeepsFindings(sha: string -> Digest, s: CrawlResult, url: string, fetch: Fetch, c: Contact)
    requires FoundOn(sha, fetch, c)
    ensures AtLeast(Visit(sha, s, url, fetch).0.contacts, c.value, c.confidence)
  {
    ServingIsValid(sha, url, fetch);
    VisitKeeps(sha, s, url, fetch);
  }

  lemma {:induction false} FindingsAreKept(
    sha: string -> Digest, s: CrawlResult, links: seq<string>, fetches: nat -> Fetch, k: nat, crawled: nat,
    maxPages: int, i: nat, c: Contact)
    requires k <= i < k + Visited(sha, s, links, fetches, k, crawled, maxPages) && FoundOn(sha, fetches(i), c)
    ensures AtLeast(VisitAll(sha, s, links, fetches, k, crawled, maxPages).contacts, c.value, c.confidence)
    decreases |links| - k
  {
    var visit := Visit(sha, s, links[k], fetches(k));
    var more := if visit.1 then crawled + 1 else crawled;
    if i > k {
      FindingsAreKept(sha, visit.0, links, fetches, k + 1, more, maxPages, i, c);
    } else {
      VisitKeepsFindings(sha, s, links[k], fetches(k), c);
      VisitAllKeeps(sha, visit.0, links, fetches, k + 1, more, maxPages);
    }
  }

  /** The links fit the budget, so each of them is fetched, whether or not those before it succeed. */
  lemma {:induction false} EveryLinkIsFetched(
    sha: string -> Digest, s: CrawlResult, links: seq<string>, fetches: nat -> Fetch, k: nat, crawled: nat,
    maxPages: int)
    requires k <= |links| && crawled + |links| - k <= maxPages
    ensures Visited(sha, s, links, fetches, k, crawled, maxPages) == |links| - k
    decreases |links| - k
  {
    if k < |links| {
      var visit := Visit(sha, s, links[k], fetches(k));
      var more := if visit.1 then crawled + 1 else crawled;
      EveryLinkIsFetched(sha, visit.0, links, fetches, k + 1, more, maxPages);
    }
  }

  // ----- Internal links -----

  /** A raw internal link: where the URL policy normalises it to, whether it stays on the site, and
      whether its path matches a priority pattern. */
  datatype Link = Link(decision: Option<string>, onSite: bool, priority: bool)

  predicate Follows(link: Link) {
    link.decision.Some? && link.onSite && link.priority
  }

  function Discover(home: string, raw: seq<Link>): seq<string> {
    if raw == [] then []
    else
      var before, link := Discover(home, raw[..|raw| - 1]), raw[|raw| - 1];
      if Follows(link) && link.decision.value != home && link.decision.value !in before
      then before + [link.decision.value]
      else before
  }

  ghost predicate Reaches(home: string, raw: seq<Link>, url: string) {
    url != home && exists l :: l in raw && Follows(l) && l.decision.value == url
  }

  /** The links to crawl are the priority pages other than the homepage, once each. */
  lemma {:induction false} DiscoveredOnce(home: string, raw: seq<Link>, url: string)
    ensures url in Discover(home, raw) <==> Reaches(home, raw, url)
    ensures forall i, j | 0 <= i < j < |Discover(home, raw)| :: Discover(home, raw)[i] != Discover(home, raw)[j]
  {
    if raw != [] {
      var before, link := raw[..|raw| - 1], raw[|raw| - 1];
      DiscoveredOnce(home, before, url);
      assert raw == before + [link];
      assert Reaches(home, raw, url)
        <==> Reaches(home, before, url) || (url != home && Follows(link) && link.decision.value == url);
    }
  }

  /** The URL policy allows the link, normalised to the URL, and it is a priority page of the site. */
  ghost predicate LeadsTo(link: Link, url: string) {
    link.decision == Some(url) && link.onSite && link.priority
  }

  /** The n-th raw link leads to a page other than the homepage, and is the first one that does. */
  ghost predicate FirstToReach(home: string, raw: seq<Link>, n: nat) {
    && n < |raw| && raw[n].decision.Some?
    && var url := raw[n].decision.value;
    && url != home && LeadsTo(raw[n], url)
    && forall m: nat | m < n :: !LeadsTo(raw[m], url)
  }

  lemma ReachedBefore(home: string, raw: seq<Link>)
    requires raw != [] && Follows(raw[|raw| - 1])
    ensures var last := |raw| - 1; var url := raw[last].decision.value;
      FirstToReach(home, raw, last) <==> url != home && url !in Discover(home, raw[..last])
  {
    var last := |raw| - 1;
    var front, url := raw[..last], raw[last].decision.value;
    DiscoveredOnce(home, front, url);
    if url != home && !FirstToReach(home, raw, last) {
      var m: nat :| m < last && LeadsTo(raw[m], url);
      assert front[m] in front;
    }
  }

  /** The links to crawl come in the order in which their pages were first linked. */
  lemma {:induction false} DiscoveredInOrder(home: string, raw: seq<Link>) returns (ps: seq<nat>)
    ensures Increasing(ps) && forall n: nat :: n in ps <==> FirstToReach(home, raw, n)
    ensures |Discover(home, raw)| == |ps|
    ensures forall i | 0 <= i < |ps| ::
      ps[i] < |raw| && raw[ps[i]].decision == Some(Discover(home, raw)[i])
  {
    ps := [];
    if raw != [] {
      var last := |raw| - 1;
      var before := DiscoveredInOrder(home, raw[..last]);
      if Follows(raw[last]) {
        ReachedBefore(home, raw);
      }
      ps := before + if FirstToReach(home, raw, last) then [last] else [];
      forall n: nat ensures n in ps <==> FirstToReach(home, raw, n) {
        assert n < last ==> (FirstToReach(home, raw, n) <==> FirstToReach(home, raw[..last], n));
        assert n in ps <==> n in before || (n == last && FirstToReach(home, raw, last));
      }
      forall i | 0 <= i < |before| ensures before[i] < last {
        assert before[i] in before;
      }
    }
  }

  /** Python's `links[:n]`. */
  function Head(links: seq<string>, n: int): seq<string> {
    if n >= 0 then (if n <= |links| then links[..n] else links)
    else if -n <= |links| then links[..|links| + n]
    else []
  }

  // ----- The crawler -----

  function Finished(r: CrawlResult): CrawlResult {
    match AuditObjection(r.pages)
    case Some(code) => r.(status := Empty, errorCode := Some(code))
    case None =>
      if r.blockedCodes != [] || exists e :: e in r.evidence && !e.valid then r.(status := Partial)
      else r.(status := Success)
  }

  lemma {:induction false} PagesMeanEvidence(sha: string -> Digest, r: CrawlResult)
    requires Coherent(sha, r) && AuditObjection(r.pages).None?
    ensures exists e :: e in r.evidence && e.valid
  {
    assert PageSupported(sha, r.evidence, r.pages[0]);
  }

  /** Every evidence item is valid and the browser was refused nothing. */
  ghost predicate Untroubled(r: CrawlResult) {
    r.blockedCodes == [] && forall e | e in r.evidence :: e.valid
  }

  /** The status says whether the result can be audited, and success that nothing is missing either. */
  ghost predicate Honest(r: CrawlResult) {
    && !r.status.Pending?
    && (IsAuditable(r) <==> r.status.Success? || r.status.Partial?)
    && (r.status.Success? <==> IsAuditable(r) && Untroubled(r))
  }

  /** The final status says exactly whether the pages can be audited, and whether anything is missing; a crawl
      without enough content is empty, for the reason named. */
  lemma FinishedIsHonest(sha: string -> Digest, r: CrawlResult)
    requires Coherent(sha, r)
    ensures Coherent(sha, Finished(r)) && Honest(Finished(r))
    ensures EnoughContent(r.pages) ==>
      (Finished(r).status.Success? || Finished(r).status.Partial?) && Finished(r).errorCode == r.errorCode
    ensures !EnoughContent(r.pages) ==>
      && Finished(r).status.Empty?
      && Finished(r).errorCode
         == Some(if r.pages == [] then "crawl_pages_empty"
                 else if forall i | 0 <= i < |r.pages| :: !CountsTowards(r.pages[i], 120)
                 then "no_valid_page_evidence" else "insufficient_total_content")
  {
    AuditableExactly(r.pages);
    if AuditObjection(r.pages).None? {
      PagesMeanEvidence(sha, r);
    }
  }

  /** The state once the homepage is stored. */
  function AfterHome(sha: string -> Digest, safeUrl: string, home: Fetch): CrawlResult
    requires home.Fetched? && home.finalUrl.Some? && home.found.Some?
  {
    var e := PageEvidence(sha, safeUrl, home);
    CrawlResult(
      home.finalUrl.value, [Page(home.finalUrl.value, CleanWhitespace(home.text))], [e],
      Merge(map[], Stamp(home.found.value, home.finalUrl.value, home.at, e.sha256)), Pending, None, [])
  }

  /** The homepage is served, and nothing raises until the internal pages are due. */
  ghost predicate HomeStands(home: Fetch, raw: Option<seq<Link>>) {
    && home.Fetched? && home.finalUrl.Some? && ServesUrl(home, home.finalUrl.value)
    && home.found.Some? && raw.Some?
  }

  /** How many internal pages are asked for. */
  function Internal(home: Fetch, raw: seq<Link>, maxPages: int): nat
    requires home.Fetched? && home.finalUrl.Some?
  {
    if maxPages < 1 then 0 else Min(|Discover(home.finalUrl.value, raw)|, maxPages - 1)
  }

  function Crawled(
    sha: string -> Digest, safeUrl: string, home: Fetch, raw: seq<Link>, fetches: nat -> Fetch, maxPages: int,
    blocked: seq<string>): CrawlResult
    requires home.Fetched? && home.finalUrl.Some? && home.found.Some?
  {
    var links := Head(Discover(home.finalUrl.value, raw), maxPages - 1);
    Finished(VisitAll(sha, AfterHome(sha, safeUrl, home), links, fetches, 0, 1, maxPages).(blockedCodes := blocked))
  }

  /** How a crawl that does not come as far as the internal pages ends. */
  ghost predicate GaveUpAtHome(r: CrawlResult, home: Fetch, policyCode: string, blockedAtHome: seq<string>) {
    && r.contacts == map[] && (forall p | p in r.pages :: Serves(home, p))
    && match home
       case Raises(_) => r.status.Failed? && r.errorCode == Some("crawler_exception")
       case Unsuccessful(_, _, _) =>
         if blockedAtHome == [] then r.status.Failed? && r.errorCode == Some("homepage_fetch_failed")
         else r.status.Blocked? && r.errorCode == Some(blockedAtHome[|blockedAtHome| - 1])
       case Fetched(finalUrl, text, status, contentType, _, _) =>
         if finalUrl.None? then r.status.Blocked? && r.errorCode == Some(policyCode)
         else if ServesUrl(home, finalUrl.value) then r.status.Failed? && r.errorCode == Some("crawler_exception")
         else
           && r.errorCode.Some? && Fails(status, contentType, CleanWhitespace(text), r.errorCode.value)
           && r.status == if r.errorCode == Some("content_too_short") then Empty else InvalidResponse
  }

  ghost predicate FoundBy(sha: string -> Digest, home: Fetch, fetches: nat -> Fetch, n: nat, c: Contact) {
    FoundOn(sha, home, c) || exists i: nat :: i < n && FoundOn(sha, fetches(i), c)
  }

  /** What a crawl reports: the pages served, the last one for each URL, and for each address found on them one
      of the contacts of the highest confidence. */
  ghost predicate Reports(
    sha: string -> Digest, home: Fetch, fetches: nat -> Fetch, n: nat, pages: seq<Page>,
    contacts: map<string, Contact>)
    requires home.Fetched? && home.finalUrl.Some?
  {
    && ReportsPages(home, fetches, n, pages)
    && ReportsFound(sha, home, fetches, n, contacts) && ReportsBest(sha, home, fetches, n, contacts)
  }

  /** The first n of the links were asked for, each leaving evidence that names it. */
  ghost predicate Recorded(links: seq<string>, n: nat, evidence: seq<Evidence>) {
    n <= |links| && forall i | 0 <= i < n :: exists e :: e in evidence && e.requestedUrl == links[i]
  }

  ghost predicate ReportsPages(home: Fetch, fetches: nat -> Fetch, n: nat, pages: seq<Page>)
    requires home.Fetched? && home.finalUrl.Some?
  {
    forall p :: p in pages <==> Stands([Page(home.finalUrl.value, CleanWhitespace(home.text))], fetches, 0, n, p)
  }

  ghost predicate ReportsFound(
    sha: string -> Digest, home: Fetch, fetches: nat -> Fetch, n: nat, contacts: map<string, Contact>)
  {
    forall v | v in contacts :: FoundBy(sha, home, fetches, n, contacts[v])
  }

  ghost predicate ReportsBest(
    sha: string -> Digest, home: Fetch, fetches: nat -> Fetch, n: nat, contacts: map<string, Contact>)
  {
    forall c | FoundBy(sha, home, fetches, n, c) :: AtLeast(contacts, c.value, c.confidence)
  }

  lemma HomeContacts(sha: string -> Digest, safeUrl: string, home: Fetch)
    requires home.Fetched? && home.finalUrl.Some? && home.found.Some? && ServesUrl(home, home.finalUrl.value)
    ensures var contacts := AfterHome(sha, safeUrl, home).contacts;
      && (forall v | v in contacts :: FoundOn(sha, home, contacts[v]))
      && (forall c | FoundOn(sha, home, c) :: AtLeast(contacts, c.value, c.confidence))
  {
    var url, digest := home.finalUrl.value, sha(CleanWhitespace(home.text));
    var stamped := Stamp(home.found.value, url, home.at, digest);
    forall v | v in Merge(map[], stamped) ensures FoundOn(sha, home, Merge(map[], stamped)[v]) {
      MergedComesFrom(map[], stamped, v);
      StampIsExact(home.found.value, url, home.at, digest, Merge(map[], stamped)[v]);
    }
    forall c | FoundOn(sha, home, c) ensures AtLeast(Merge(map[], stamped), c.value, c.confidence) {
      StampIsExact(home.found.value, url, home.at, digest, c);
      var i :| 0 <= i < |stamped| && stamped[i] == c;
      MergeKeepsContact(map[], stamped, i);
    }
  }

  // The parts of `Reports` for the loop over internal pages, of which n are fetched.

  lemma LoopReportsContacts(
    sha: string -> Digest, home: Fetch, start: CrawlResult, links: seq<string>, fetches: nat -> Fetch, maxPages: int,
    n: nat)
    requires forall v | v in start.contacts :: FoundOn(sha, home, start.contacts[v])
    requires n == Visited(sha, start, links, fetches, 0, 1, maxPages)
    ensures ReportsFound(sha, home, fetches, n, VisitAll(sha, start, links, fetches, 0, 1, maxPages).contacts)
  {
    var contacts := VisitAll(sha, start, links, fetches, 0, 1, maxPages).contacts;
    forall v | v in contacts ensures FoundBy(sha, home, fetches, n, contacts[v]) {
      ContactsAreFound(sha, start, links, fetches, 0, 1, maxPages, v);
    }
  }

  lemma LoopReportsBest(
    sha: string -> Digest, home: Fetch, start: CrawlResult, links: seq<string>, fetches: nat -> Fetch, maxPages: int,
    n: nat)
    requires forall c | FoundOn(sha, home, c) :: AtLeast(start.contacts, c.value, c.confidence)
    requires n == Visited(sha, start, links, fetches, 0, 1, maxPages)
    ensures ReportsBest(sha, home, fetches, n, VisitAll(sha, start, links, fetches, 0, 1, maxPages).contacts)
  {
    VisitAllKeeps(sha, start, links, fetches, 0, 1, maxPages);
    forall c | FoundBy(sha, home, fetches, n, c)
      ensures AtLeast(VisitAll(sha, start, links, fetches, 0, 1, maxPages).contacts, c.value, c.confidence)
    {
      if !FoundOn(sha, home, c) {
        var i: nat :| i < n && FoundOn(sha, fetches(i), c);
        FindingsAreKept(sha, start, links, fetches, 0, 1, maxPages, i, c);
      }
    }
  }

  lemma LoopReports(
    sha: string -> Digest, home: Fetch, start: CrawlResult, links: seq<string>, fetches: nat -> Fetch, maxPages: int,
    n: nat, done: CrawlResult)
    requires home.Fetched? && home.finalUrl.Some?
    requires start.pages == [Page(home.finalUrl.value, CleanWhitespace(home.text))]
    requires forall v | v in start.contacts :: FoundOn(sha, home, start.contacts[v])
    requires forall c | FoundOn(sha, home, c) :: AtLeast(start.contacts, c.value, c.confidence)
    requires n == Visited(sha, start, links, fetches, 0, 1, maxPages)
    requires done == VisitAll(sha, start, links, fetches, 0, 1, maxPages)
    ensures Reports(sha, home, fetches, n, done.pages, done.contacts)
  {
    PagesAreServed(sha, start, links, fetches, 0, 1, maxPages, n, done.pages);
    LoopReportsContacts(sha, home, start, links, fetches, maxPages, n);
    LoopReportsBest(sha, home, start, links, fetches, maxPages, n);
  }

  /** The final status leaves pages and contacts alone. */
  lemma FinishingKeeps(done: CrawlResult, blocked: seq<string>)
    ensures var r := Finished(done.(blockedCodes := blocked));
      r.pages == done.pages && r.contacts == done.contacts && r.evidence == done.evidence && r.url == done.url
  {
  }

  lemma HomePageCoherent(sha: string -> Digest, e: Evidence, content: string)
    requires e.valid && e.sha256 == sha(content)
    ensures var pages := PutPage([], e.finalUrl, content);
      && pages == [Page(e.finalUrl, content)]
      && Coherent(sha, CrawlResult(e.finalUrl, pages, [e], map[], Pending, None, []))
  {
    AddPageCoherent(sha, CrawlResult(e.finalUrl, [], [], map[], Pending, None, []), e, content);
    assert [] + [e] == [e];
  }

  /** The result of a homepage that is no evidence. */
  lemma InvalidHomeGivesUp(sha: string -> Digest, safeUrl: string, home: Fetch, r: CrawlResult)
    requires home.Fetched? && home.finalUrl.Some?
    requires var e := PageEvidence(sha, safeUrl, home);
      && !e.valid
      && r == CrawlResult(
           home.finalUrl.value, [], [e], map[],
           if e.failureCode == Some("content_too_short") then Empty else InvalidResponse, e.failureCode, [])
    ensures Coherent(sha, r) && GaveUpAtHome(r, home, "", []) && !HomeStands(home, Some([]))
  {
    EvidenceIsJustified(
      sha, safeUrl, home.finalUrl.value, home.status, home.contentType, CleanWhitespace(home.text), home.at, None);
  }

  lemma CrawlReports(
    sha: string -> Digest, safeUrl: string, home: Fetch, raw: seq<Link>, fetches: nat -> Fetch, maxPages: int,
    blocked: seq<string>, n: nat)
    requires HomeStands(home, Some(raw)) && n == Internal(home, raw, maxPages)
    ensures var r := Crawled(sha, safeUrl, home, raw, fetches, maxPages, blocked);
      && Reports(sha, home, fetches, n, r.pages, r.contacts)
      && Recorded(Discover(home.finalUrl.value, raw), n, r.evidence) && r.url == home.finalUrl.value
  {
    var links := Head(Discover(home.finalUrl.value, raw), maxPages - 1);
    var start := AfterHome(sha, safeUrl, home);
    var done := VisitAll(sha, start, links, fetches, 0, 1, maxPages);
    FinishingKeeps(done, blocked);
    VisitAllKeeps(sha, start, links, fetches, 0, 1, maxPages);
    HeadIsFetched(sha, safeUrl, home, raw, fetches, maxPages);
    HomeContacts(sha, safeUrl, home);
    LoopReports(sha, home, start, links, fetches, maxPages, n, done);
    LoopRecords(sha, start, Discover(home.finalUrl.value, raw), links, fetches, maxPages, n, done.evidence);
  }

  lemma LoopRecords(
    sha: string -> Digest, start: CrawlResult, discovered: seq<string>, links: seq<string>, fetches: nat -> Fetch,
    maxPages: int, n: nat, evidence: seq<Evidence>)
    requires n == Visited(sha, start, links, fetches, 0, 1, maxPages)
    requires evidence == VisitAll(sha, start, links, fetches, 0, 1, maxPages).evidence
    requires n <= |discovered| && (n > 0 ==> links == discovered[..n])
    ensures Recorded(discovered, n, evidence)
  {
    forall i | 0 <= i < n ensures exists e :: e in evidence && e.requestedUrl == discovered[i] {
      EveryVisitLeavesEvidence(sha, start, links, fetches, 0, 1, maxPages, i);
    }
  }

  /** Each of the first links the budget leaves room for is fetched. */
  lemma HeadIsFetched(
    sha: string -> Digest, safeUrl: string, home: Fetch, raw: seq<Link>, fetches: nat -> Fetch, maxPages: int)
    requires home.Fetched? && home.finalUrl.Some? && home.found.Some?
    ensures var links := Head(Discover(home.finalUrl.value, raw), maxPages - 1);
      && Visited(sha, AfterHome(sha, safeUrl, home), links, fetches, 0, 1, maxPages) == Internal(home, raw, maxPages)
      && (maxPages >= 1 ==> links == Discover(home.finalUrl.value, raw)[..Internal(home, raw, maxPages)])
  {
    if maxPages >= 1 {
      var links := Head(Discover(home.finalUrl.value, raw), maxPages - 1);
      EveryLinkIsFetched(sha, AfterHome(sha, safeUrl, home), links, fetches, 0, 1, maxPages);
    }
  }

  class HybridCrawler {
    const maxPages: int
    var blockedRequests: seq<string>

    constructor (maxPages: int) {
      this.maxPages := maxPages;
      blockedRequests := [];
    }

    method DiscoverLinks(home: string, raw: seq<Link>) returns (links: seq<string>)
      ensures links == Discover(home, raw)
    {
      links := [];
      var seen := {home};
      var i := 0;
      while i < |raw|
        invariant 0 <= i <= |raw|
        invariant links == Discover(home, raw[..i])
        invariant forall url :: url in seen <==> url == home || url in links
      {
        assert raw[..i + 1][..i] == raw[..i];
        var link := raw[i];
        i := i + 1;
        if link.decision.None? || !link.onSite {
          continue;
        }
        var clean := link.decision.value;
        if clean in seen {
          continue;
        }
        if link.priority {
          links := links + [clean];
          seen := seen + {clean};
        }
      }
      assert raw[..i] == raw;
    }

    /** `safeUrl` is the policy's decision on the start URL, `ready` whether the crawler then comes as far as
        asking for the homepage, its modules imported and its browser started; `raw` is absent when the
        discovery of links raises, which leaves the contacts found so far unassigned; `blockedAtHome` and
        `blocked` are the requests the browser was refused by then. `fetched` counts the pages asked for. */
    method CrawlSite(
      sha: string -> Digest, url: string, safeUrl: Result<string, string>, ready: bool, home: Fetch,
      policyCode: string, raw: Option<seq<Link>>, fetches: nat -> Fetch, blockedAtHome: seq<string>,
      blocked: seq<string>)
      returns (result: CrawlResult, fetched: nat)
      modifies this
      ensures Coherent(sha, result) && Honest(result)
      ensures fetched == if safeUrl.Err? || !ready then 0
                         else if HomeStands(home, raw) then 1 + Internal(home, raw.value, maxPages) else 1
      ensures safeUrl.Ok? && ready && HomeStands(home, raw) ==>
        && result == Crawled(sha, safeUrl.value, home, raw.value, fetches, maxPages, blocked)
        && Reports(sha, home, fetches, fetched - 1, result.pages, result.contacts)
        && Recorded(Discover(home.finalUrl.value, raw.value), fetched - 1, result.evidence)
        && result.url == home.finalUrl.value
      ensures safeUrl.Ok? && ready && !HomeStands(home, raw) ==>
        GaveUpAtHome(result, home, policyCode, blockedAtHome)
      ensures safeUrl.Err? || !ready ==>
        && result.pages == [] && result.evidence == [] && result.contacts == map[]
        && if safeUrl.Err? then result.status.Blocked? && result.errorCode == Some(safeUrl.error)
           else result.status.Failed? && result.errorCode == Some("crawler_exception")
    {
      result := CrawlResult(url, [], [], map[], Pending, None, []);
      fetched := 0;
      blockedRequests := [];
      if safeUrl.Err? {
        result := result.(status := Blocked, errorCode := Some(safeUrl.error));
        return;
      }
      if !ready {
        result := result.(url := safeUrl.value, status := Failed, errorCode := Some("crawler_exception"));
        return;
      }
      result, fetched := CrawlFrom(sha, safeUrl.value, home, policyCode, raw, fetches, blockedAtHome, blocked);
      if HomeStands(home, raw) {
        CrawlReports(sha, safeUrl.value, home, raw.value, fetches, maxPages, blocked, fetched - 1);
      }
    }

    /** The crawl of a start URL the policy allows. */
    method CrawlFrom(
      sha: string -> Digest, safeUrl: string, home: Fetch, policyCode: string,
      raw: Option<seq<Link>>, fetches: nat -> Fetch, blockedAtHome: seq<string>, blocked: seq<string>)
      returns (result: CrawlResult, fetched: nat)
      modifies this
      ensures Coherent(sha, result) && Honest(result)
      ensures fetched == if HomeStands(home, raw) then 1 + Internal(home, raw.value, maxPages) else 1
      ensures HomeStands(home, raw) ==>
        result == Crawled(sha, safeUrl, home, raw.value, fetches, maxPages, blocked)
      ensures !HomeStands(home, raw) ==> GaveUpAtHome(result, home, policyCode, blockedAtHome)
    {
      var stored;
      result, stored := FetchHome(sha, safeUrl, home, policyCode, blockedAtHome);
      fetched := 1;
      if !stored {
        return;
      }
      if raw.None? {
        result := result.(contacts := map[], status := Failed, errorCode := Some("crawler_exception"));
        return;
      }
      var visited;
      result, visited := CrawlInternalPages(sha, result, raw.value, fetches, blocked);
      HeadIsFetched(sha, safeUrl, home, raw.value, fetches, maxPages);
      fetched := fetched + visited;
    }

    method CrawlInternalPages(
      sha: string -> Digest, start: CrawlResult, raw: seq<Link>, fetches: nat -> Fetch, blocked: seq<string>)
      returns (result: CrawlResult, visited: nat)
      requires Coherent(sha, start)
      modifies this
      ensures Coherent(sha, result) && Honest(result)
      ensures var links := Head(Discover(start.url, raw), maxPages - 1);
        && visited == Visited(sha, start, links, fetches, 0, 1, maxPages)
        && result == Finished(VisitAll(sha, start, links, fetches, 0, 1, maxPages).(blockedCodes := blocked))
    {
      var links := DiscoverLinks(start.url, raw);
      links := Head(links, maxPages - 1);
      result, visited := CrawlPages(sha, start, links, fetches);
      blockedRequests := blocked;
      result := result.(blockedCodes := blockedRequests);
      FinishedIsHonest(sha, result);
      result := Finished(result);
    }

    /** Fetch and check the homepage; `stored` when the crawl goes on to the internal links. */
    method FetchHome(
      sha: string -> Digest, safeUrl: string, home: Fetch, policyCode: string, blockedAtHome: seq<string>)
      returns (result: CrawlResult, stored: bool)
      modifies this
      ensures Coherent(sha, result)
      ensures stored <==> HomeStands(home, Some([]))
      ensures stored ==> result == AfterHome(sha, safeUrl, home)
      ensures !stored ==> GaveUpAtHome(result, home, policyCode, blockedAtHome)
    {
      result, stored := CrawlResult(safeUrl, [], [], map[], Pending, None, []), false;
      blockedRequests := blockedAtHome;
      if home.Raises? {
        result := result.(status := Failed, errorCode := Some("crawler_exception"));
        return;
      }
      if home.Unsuccessful? {
        result := result.(blockedCodes := blockedRequests);
        if result.blockedCodes != [] {
          result := result.(status := Blocked, errorCode := Some(blockedRequests[|blockedRequests| - 1]));
        } else {
          result := result.(status := Failed, errorCode := Some("homepage_fetch_failed"));
        }
        return;
      }
      if home.finalUrl.None? {
        result := result.(status := Blocked, errorCode := Some(policyCode));
        return;
      }
      result, stored := StoreHome(sha, safeUrl, home);
    }

    /** The homepage was fetched, and the URL policy accepts where it ended. */
    method StoreHome(sha: string -> Digest, safeUrl: string, home: Fetch) returns (result: CrawlResult, stored: bool)
      requires home.Fetched? && home.finalUrl.Some?
      ensures Coherent(sha, result)
      ensures stored <==> HomeStands(home, Some([]))
      ensures stored ==> result == AfterHome(sha, safeUrl, home)
      ensures !stored ==> GaveUpAtHome(result, home, "", [])
    {
      result, stored := CrawlResult(home.finalUrl.value, [], [], map[], Pending, None, []), false;
      var content := CleanWhitespace(home.text);
      var e := PageEvidence(sha, safeUrl, home);
      ServingIsValid(sha, safeUrl, home);
      result := result.(evidence := [e]);
      if !e.valid {
        result := result.(
          status := if e.failureCode == Some("content_too_short") then Empty else InvalidResponse,
          errorCode := e.failureCode);
        InvalidHomeGivesUp(sha, safeUrl, home, result);
        return;
      }
      result := result.(pages := PutPage(result.pages, result.url, content));
      HomePageCoherent(sha, e, content);
      if home.found.None? {
        result := result.(status := Failed, errorCode := Some("crawler_exception"));
        return;
      }
      FindingsCoherent(sha, result, e, home.found.value);
      result := result.(contacts := Merge(result.contacts, Stamp(home.found.value, result.url, home.at, e.sha256)));
      stored := true;
    }

    /** The loop over the internal pages; the homepage has used up one page of the budget. */
    method CrawlPages(sha: string -> Digest, start: CrawlResult, links: seq<string>, fetches: nat -> Fetch)
      returns (result: CrawlResult, visited: nat)
      requires Coherent(sha, start)
      ensures Coherent(sha, result)
      ensures result == VisitAll(sha, start, links, fetches, 0, 1, maxPages)
      ensures visited == Visited(sha, start, links, fetches, 0, 1, maxPages)
    {
      result, visited := start, 0;
      var crawled := 1;
      while visited < |links| && crawled < maxPages
        invariant 0 <= visited <= |links|
        invariant Coherent(sha, result)
        invariant VisitAll(sha, start, links, fetches, 0, 1, maxPages)
               == VisitAll(sha, result, links, fetches, visited, crawled, maxPages)
        invariant Visited(sha, start, links, fetches, 0, 1, maxPages)
               == visited + Visited(sha, result, links, fetches, visited, crawled, maxPages)
        decreases |links| - visited
      {
        VisitCoherent(sha, result, links[visited], fetches(visited));
        var counted;
        result, counted := VisitPage(sha, result, links[visited], fetches(visited));
        if counted {
          crawled := crawled + 1;
        }
        visited := visited + 1;
      }
    }

    /** The body of the loop over internal pages. */
    method VisitPage(sha: string -> Digest, before: CrawlResult, url: string, fetch: Fetch)
      returns (result: CrawlResult, counted: bool)
      ensures (result, counted) == Visit(sha, before, url, fetch)
    {
      result, counted := before, false;
      match fetch {
        case Raises(at) =>
          result := Complain(sha, result, url, None, "", at, "page_exception");
        case Unsuccessful(status, contentType, at) =>
          result := Complain(sha, result, url, status, contentType, at, "page_fetch_failed");
        case Fetched(finalUrl, text, status, contentType, at, found) =>
          if finalUrl.None? {
            result := Complain(sha, result, url, None, "", at, "page_exception");
            return;
          }
          var content := CleanWhitespace(text);
          var e := FromContent(sha, url, finalUrl.value, status, contentType, content, at, None);
          result := result.(evidence := result.evidence + [e]);
          if !e.valid {
            return;
          }
          result := result.(pages := PutPage(result.pages, finalUrl.value, content));
          if found.None? {
            result := Complain(sha, result, url, None, "", at, "page_exception");
            return;
          }
          result := result.(contacts := Merge(result.contacts, Stamp(found.value, finalUrl.value, at, e.sha256)));
          counted := true;
      }
    }
  }
}
