/**
 * The Gemini client of the extension (chrome-extension/geminiClient.js, the
 * declarations from line 309 on, which are the ones in effect): how a listing
 * is redacted and turned into a summary request, how the outgoing request is
 * compacted by the wrapper installed around `fetch`, how replies are read and
 * classified, how a failed call is retried with a tweaked token budget, and how
 * errors and the key-test reply are presented. Calls to the API are a script
 * of outcomes: the i-th call made receives the i-th outcome, and a call beyond
 * the end of the script fails as an unreachable host does.
 */
module GeminiClient {
  import opened Wrappers
  import opened JsText

  // ================================================================ cutting strings

  /** `v.length > limit ? v.slice(0, limit) + '…' : v`. */
  function Cut(v: string, limit: nat): (r: string)
    ensures |r| <= limit + 1
    ensures |v| <= limit ==> r == v
    ensures |v| > limit ==> r == v[..limit] + "…"
  {
    if |v| > limit then v[..limit] + "…" else v
  }

  /** Cutting to a limit and then to a smaller or equal one is cutting to the
      smaller one; in particular cutting twice to the same limit changes nothing. */
  lemma CutCut(v: string, a: nat, b: nat)
    requires b <= a
    ensures Cut(Cut(v, a), b) == Cut(v, b)
  {
    if |v| > a {
      assert Cut(v, a)[..b] == v[..b];
    }
  }

  /** Cutting to a limit and then to a larger one is the first cut alone. */
  lemma CutThenLarger(v: string, a: nat, b: nat)
    requires a < b
    ensures Cut(Cut(v, a), b) == Cut(v, a)
  {
  }

  // ================================================================ listing records

  /** A field of a scraped listing: a string, or some other JSON value, kept
      as it is. */
  datatype Value = Str(text: string) | Num(n: int) | Bool(b: bool) | Null

  type Record = map<string, Value>

  /** The per-field limit of the redaction: 400 for 'En Yakın' and 'Çevre',
      600 for every other field. */
  function RedactLimit(k: string): nat {
    if k == "En Yakın" || k == "Çevre" then 400 else 600
  }

  /** The first cap, on the description alone: 2000 characters. */
  function CapDescription(k: string, v: Value): Value {
    if k == "Açıklama" && v.Str? && |v.text| > 2000 then Str(v.text[..2000] + "…") else v
  }

  function RedactValue(k: string, v: Value): Value {
    if v.Str? then Str(Cut(v.text, RedactLimit(k))) else v
  }

  /** The record a summary request carries: 'Image Data' dropped, the
      description capped, then every string field cut to its limit. */
  function Redacted(record: Record): (r: Record)
    ensures r.Keys == record.Keys - {"Image Data"}
  {
    map k | k in record && k != "Image Data" :: RedactValue(k, CapDescription(k, record[k]))
  }

  /** The redaction as the source runs it: a copy, a `delete`, the description
      cap, then a loop over the keys that cuts long strings in place. */
  method Redact(record: Record) returns (redacted: Record)
    ensures redacted == Redacted(record)
  {
    redacted := map k | k in record && k != "Image Data" :: record[k];
    if "Açıklama" in redacted && redacted["Açıklama"].Str? && |redacted["Açıklama"].text| > 2000 {
      redacted := redacted["Açıklama" := Str(redacted["Açıklama"].text[..2000] + "…")];
    }
    assert forall k :: k in redacted ==> redacted[k] == CapDescription(k, record[k]);
    redacted := CutLongStrings(redacted);
    assert redacted == Redacted(record) by {
      assert forall k :: k in redacted ==> redacted[k] == RedactValue(k, CapDescription(k, record[k]));
    }
  }

  /** The loop over the keys: every string field is cut to its limit. */
  method CutLongStrings(capped: Record) returns (redacted: Record)
    ensures redacted.Keys == capped.Keys
    ensures forall k :: k in redacted ==> redacted[k] == RedactValue(k, capped[k])
  {
    redacted := capped;
    var keys := redacted.Keys;
    while keys != {}
      invariant keys <= capped.Keys && redacted.Keys == capped.Keys
      invariant forall k :: k in capped && k in keys ==> redacted[k] == capped[k]
      invariant forall k :: k in capped && k !in keys ==> redacted[k] == RedactValue(k, capped[k])
      decreases keys
    {
      var k :| k in keys;
      redacted := CutField(redacted, k);
      keys := keys - {k};
    }
  }

  /** One turn of the loop: a string field longer than its limit is cut to
      the limit and marked with an ellipsis. */
  method CutField(record: Record, k: string) returns (r: Record)
    requires k in record
    ensures r == record[k := RedactValue(k, record[k])]
  {
    r := record;
    var v := record[k];
    if v.Str? {
      var limit := if k == "En Yakın" || k == "Çevre" then 400 else 600;
      if |v.text| > limit {
        r := record[k := Str(v.text[..limit] + "…")];
      }
    }
    assert r[k] == RedactValue(k, record[k]);
  }

  /** No string of the redacted record is longer than its limit plus the
      ellipsis; strings within their limit and values that are not strings
      come through unchanged. */
  lemma RedactedBounds(record: Record, k: string)
    requires k in record && k != "Image Data"
    ensures k in Redacted(record)
    ensures Redacted(record)[k].Str? <==> record[k].Str?
    ensures record[k].Str? ==> |Redacted(record)[k].text| <= RedactLimit(k) + 1
    ensures record[k].Str? && |record[k].text| <= RedactLimit(k) ==> Redacted(record)[k] == record[k]
    ensures !record[k].Str? ==> Redacted(record)[k] == record[k]
  {
  }

  /** The 2000-character cap on the description never shows: the 600-character
      cut that follows gives the same result without it. */
  lemma DescriptionCapIsSubsumed(record: Record)
    ensures Redacted(record) == map k | k in record && k != "Image Data" :: RedactValue(k, record[k])
  {
    forall k | k in record && k != "Image Data"
      ensures RedactValue(k, CapDescription(k, record[k])) == RedactValue(k, record[k])
    {
      var v := record[k];
      if k == "Açıklama" && v.Str? && |v.text| > 2000 {
        assert CapDescription(k, v).text == Cut(v.text, 2000);
        CutCut(v.text, 2000, 600);
      }
    }
  }

  /** Redacting a redacted record changes nothing. */
  lemma RedactedIdempotent(record: Record)
    ensures Redacted(Redacted(record)) == Redacted(record)
  {
    var r := Redacted(record);
    forall k | k in r
      ensures RedactValue(k, CapDescription(k, r[k])) == r[k]
    {
      var v := CapDescription(k, record[k]);
      if v.Str? {
        CutCut(v.text, RedactLimit(k), RedactLimit(k));
      }
    }
  }

  // ================================================================ criteria

  /** The length of the match of `^\s*Önemli\s*:` (case-insensitive) at the
      start of a criteria line, if the line is an important one. */
  function ImportantPrefix(line: string): (n: Option<nat>)
    ensures n.Some? ==> 0 < n.value <= |line| && line[n.value - 1] == ':'
  {
    var lead := SpaceRun(line);
    if !MatchesCiAt(line, lead, "Önemli") then None
    else
      var word := lead + 6;
      var colon := word + SpaceRun(line[word..]);
      if colon < |line| && line[colon] == ':' then Some(colon + 1) else None
  }

  predicate IsImportant(line: string) {
    ImportantPrefix(line).Some?
  }

  /** `^\s*Önemli\s*:` matches `line` with "Önemli" at `a` and the colon at `b`. */
  predicate ImportantMatch(line: string, a: nat, b: nat) {
    && a + 6 <= b < |line|
    && IsBlank(line[..a])
    && MatchesCiAt(line, a, "Önemli")
    && IsBlank(line[a + 6..b])
    && line[b] == ':'
  }

  /** A character that folds like 'Ö' is not white space. */
  lemma FoldsLikeONotSpace(c: char)
    requires RegexFold(c) == RegexFold('Ö')
    ensures !IsSpace(c)
  {
  }

  /** The prefix is found exactly when the regular expression matches the
      line, and its length is the length of that match: up to and including
      the colon. */
  lemma ImportantPrefixSpec(line: string)
    ensures ImportantPrefix(line).Some? <==> exists a: nat, b: nat :: ImportantMatch(line, a, b)
    ensures forall a: nat, b: nat :: ImportantMatch(line, a, b) ==> ImportantPrefix(line) == Some(b + 1)
  {
    if ImportantPrefix(line).Some? {
      ImportantPrefixMatches(line);
    }
    forall a: nat, b: nat | ImportantMatch(line, a, b)
      ensures ImportantPrefix(line) == Some(b + 1)
    {
      ImportantMatchPositions(line, a, b);
    }
  }

  /** A prefix found is a match of the regular expression. */
  lemma ImportantPrefixMatches(line: string)
    requires ImportantPrefix(line).Some?
    ensures ImportantMatch(line, SpaceRun(line), ImportantPrefix(line).value - 1)
  {
    var lead := SpaceRun(line);
    var word := lead + 6;
    var gap := SpaceRun(line[word..]);
    SpaceRunBlank(line);
    SpaceRunBlank(line[word..]);
    assert line[word..][..gap] == line[word..word + gap];
  }

  /** The greedy white-space run is white space. */
  lemma SpaceRunBlank(s: string)
    ensures IsBlank(s[..SpaceRun(s)])
  {
    var n := SpaceRun(s);
    forall k | 0 <= k < n
      ensures IsSpace(s[..n][k])
    {
      assert s[..n][k] == s[k];
    }
  }

  /** A match of `^\s*Önemli\s*:` can only sit where the greedy white-space
      runs put it. */
  lemma ImportantMatchPositions(line: string, a: nat, b: nat)
    requires ImportantMatch(line, a, b)
    ensures a == SpaceRun(line) && b == a + 6 + SpaceRun(line[a + 6..])
    ensures ImportantPrefix(line) == Some(b + 1)
  {
    assert RegexFold(line[a + 0]) == RegexFold("Önemli"[0]);
    FoldsLikeONotSpace(line[a]);
    SpaceRunAt(line, a);
    var w := line[a + 6..];
    assert w[..b - (a + 6)] == line[a + 6..b];
    assert w[b - (a + 6)] == ':';
    SpaceRunAt(w, b - (a + 6));
  }

  /** White space up to `n` and none at `n`: the greedy run has length `n`. */
  lemma SpaceRunAt(s: string, n: nat)
    requires n < |s| && IsBlank(s[..n]) && !IsSpace(s[n])
    ensures SpaceRun(s) == n
  {
    forall k | 0 <= k < n
      ensures IsSpace(s[k])
    {
      assert s[..n][k] == s[k];
    }
  }

  /** The line with its important prefix and the white space after it
      removed (a `replace`), then trimmed. */
  function StripImportant(line: string): string
    requires IsImportant(line)
  {
    var n := ImportantPrefix(line).value;
    Trim(line[n + SpaceRun(line[n..])..])
  }

  /** The important criteria, prefix removed and trimmed, in order. */
  function Important(lines: seq<string>): (r: seq<string>)
    ensures |r| <= |lines|
  {
    if lines == [] then []
    else
      var last := lines[|lines| - 1];
      Important(lines[..|lines| - 1]) + (if IsImportant(last) then [StripImportant(last)] else [])
  }

  /** The other criteria, trimmed, in order. */
  function Normal(lines: seq<string>): (r: seq<string>)
    ensures |r| <= |lines|
  {
    if lines == [] then []
    else
      var last := lines[|lines| - 1];
      Normal(lines[..|lines| - 1]) + (if IsImportant(last) then [] else [Trim(last)])
  }

  /** The important list keeps the order of the lines: the list of two
      blocks of lines is the list of each block, one after the other. */
  lemma {:induction false} ImportantOrder(a: seq<string>, b: seq<string>)
    ensures Important(a + b) == Important(a) + Important(b)
    decreases |b|
  {
    if b == [] {
      assert a + b == a;
    } else {
      var k := |b| - 1;
      assert (a + b)[..|a + b| - 1] == a + b[..k];
      assert (a + b)[|a + b| - 1] == b[k];
      ImportantOrder(a, b[..k]);
    }
  }

  /** The other list keeps the order of the lines too. */
  lemma {:induction false} NormalOrder(a: seq<string>, b: seq<string>)
    ensures Normal(a + b) == Normal(a) + Normal(b)
    decreases |b|
  {
    if b == [] {
      assert a + b == a;
    } else {
      var k := |b| - 1;
      assert (a + b)[..|a + b| - 1] == a + b[..k];
      assert (a + b)[|a + b| - 1] == b[k];
      NormalOrder(a, b[..k]);
    }
  }

  /** Every line goes to exactly one of the two lists. */
  lemma {:induction false} PartitionCount(lines: seq<string>)
    ensures |Important(lines)| + |Normal(lines)| == |lines|
  {
    if lines != [] {
      PartitionCount(lines[..|lines| - 1]);
    }
  }

  /** The entries of both lists neither start nor end with white space. */
  lemma {:induction false} PartitionTrimmed(lines: seq<string>)
    ensures forall i :: 0 <= i < |Important(lines)| ==> Trimmed(Important(lines)[i])
    ensures forall i :: 0 <= i < |Normal(lines)| ==> Trimmed(Normal(lines)[i])
  {
    if lines != [] {
      PartitionTrimmed(lines[..|lines| - 1]);
    }
  }

  // ================================================================ requests

  /** A part of a request's content: a text part, the part holding a record as
      JSON text (what `JSON.stringify` of the record gives), or a part that is
      null or whose `text` is not a string. */
  datatype Part = TextPart(text: string) | RecordPart(fields: Record) | OtherPart

  /** One entry of `contents`; `parts` is absent when it is not an array. */
  datatype Content = Content(role: Option<string>, parts: Option<seq<Part>>)

  /** `generationConfig`; each field may be absent. */
  datatype GenConfig = GenConfig(
    maxOutputTokens: Option<int>,
    temperature: Option<real>,
    topP: Option<real>,
    topK: Option<int>,
    stopSequences: Option<seq<string>>)

  const NoConfig: GenConfig := GenConfig(None, None, None, None, None)

  /** A `generateContent` request body. `system` says whether it has a
      `systemInstruction` property (the instruction text plays no part here). */
  datatype Request = Request(system: bool, contents: Option<seq<Content>>, config: Option<GenConfig>)

  /** The brevity hint appended to the last content's parts. */
  const Hint: string := "Yanıtı 1-2 kısa cümleyle, 25 kelimeyi aşmadan, düz metin olarak ver."

  // ================================================================ the fetch wrapper

  /** The record keys the wrapper keeps. */
  const Allowed: set<string> := {
    "İl / İlçe", "İlan Başlığı", "Bulunduğu Kat", "Cephe", "Çevre", "En Yakın", "Açıklama",
    "Cephe Çevre", "m² (Brüt)", "m² (Net)", "Oda Sayısı", "Harita", "İlan No", "Fiyat"
  }

  /** The wrapper's per-field limit: 800 for the description, 300 for the
      surroundings fields, 120 otherwise. */
  function CompactLimit(k: string): nat {
    if k == "En Yakın" || k == "Çevre" || k == "Cephe Çevre" then 300
    else if k == "Açıklama" then 800
    else 120
  }

  function CompactValue(k: string, v: Value): Value {
    if v.Str? then Str(Cut(v.text, CompactLimit(k))) else v
  }

  /** The record part as the wrapper rewrites it: allowed keys only, strings
      cut to their limits. */
  function Compacted(r: Record): (c: Record)
    ensures c.Keys == r.Keys * Allowed
  {
    map k | k in r && k in Allowed :: CompactValue(k, r[k])
  }

  /** The loop over `Object.keys(objJson)` that builds `compact`. */
  method CompactRecord(r: Record) returns (compact: Record)
    ensures compact == Compacted(r)
  {
    compact := map[];
    var keys := r.Keys;
    while keys != {}
      invariant keys <= r.Keys
      invariant compact.Keys == (r.Keys - keys) * Allowed
      invariant forall k :: k in compact ==> compact[k] == CompactValue(k, r[k])
      decreases keys
    {
      var k :| k in keys;
      if k in Allowed {
        var v := r[k];
        if v.Str? {
          var limit := 120;
          if k == "Açıklama" {
            limit := 800;
          }
          if k == "En Yakın" || k == "Çevre" || k == "Cephe Çevre" {
            limit := 300;
          }
          if |v.text| > limit {
            v := Str(v.text[..limit] + "…");
          }
        }
        compact := compact[k := v];
      }
      keys := keys - {k};
    }
  }

  /** Compacting a compacted record changes nothing. */
  lemma CompactedIdempotent(r: Record)
    ensures Compacted(Compacted(r)) == Compacted(r)
  {
    forall k | k in Compacted(r)
      ensures CompactValue(k, Compacted(r)[k]) == Compacted(r)[k]
    {
      if r[k].Str? {
        CutCut(r[k].text, CompactLimit(k), CompactLimit(k));
      }
    }
  }

  /** The limit a field of a summary request ends up with once redacted and
      compacted: the smaller of the two limits. */
  function SentLimit(k: string): nat {
    if k == "En Yakın" || k == "Çevre" || k == "Cephe Çevre" then 300
    else if k == "Açıklama" then 600
    else 120
  }

  /** What reaches the API of a listing record: the allowed fields, each string
      cut once to the smaller of the redaction and the wrapper limits. */
  lemma SentRecord(record: Record)
    ensures Compacted(Redacted(record)) == map k | k in record && k in Allowed && k != "Image Data" ::
      if record[k].Str? then Str(Cut(record[k].text, SentLimit(k))) else record[k]
  {
    DescriptionCapIsSubsumed(record);
    forall k | k in record && k in Allowed && k != "Image Data" && record[k].Str?
      ensures CompactValue(k, RedactValue(k, record[k])) == Str(Cut(record[k].text, SentLimit(k)))
    {
      var t := record[k].text;
      if k == "Açıklama" {
        CutThenLarger(t, 600, 800);
      } else if k == "En Yakın" || k == "Çevre" {
        CutCut(t, 400, 300);
      } else {
        CutCut(t, 600, CompactLimit(k));
      }
    }
  }

  /** A part the wrapper drops: an empty or non-string text, the style sample
      (`^Örnek biçem:`) and the guidance criteria (`^Diğer\s*:`), both
      case-insensitive. */
  predicate Dropped(p: Part) {
    match p
    case OtherPart => true
    case RecordPart(_) => false
    case TextPart(t) =>
      t == "" || MatchesCiAt(t, 0, "Örnek biçem:")
      || (MatchesCiAt(t, 0, "Diğer") && 5 + SpaceRun(t[5..]) < |t| && t[5 + SpaceRun(t[5..])] == ':')
  }

  /** The kept parts, the record part compacted, in order. */
  function CompactParts(ps: seq<Part>): (r: seq<Part>)
    ensures |r| <= |ps|
    ensures forall i :: 0 <= i < |r| ==> !r[i].OtherPart?
  {
    if ps == [] then []
    else
      var p := ps[|ps| - 1];
      CompactParts(ps[..|ps| - 1])
      + (if Dropped(p) then [] else if p.RecordPart? then [RecordPart(Compacted(p.fields))] else [p])
  }

  /** One content as the wrapper rewrites it: its parts compacted, then the
      hint appended; a content without a parts array is left alone. */
  function CompactContent(c: Content): Content {
    match c.parts
    case None => c
    case Some(ps) => Content(c.role, Some(CompactParts(ps) + [TextPart(Hint)]))
  }

  function CompactContents(cs: seq<Content>): (r: seq<Content>)
    ensures |r| == |cs|
    ensures forall i :: 0 <= i < |cs| ==> r[i] == CompactContent(cs[i])
  {
    if cs == [] then [] else CompactContents(cs[..|cs| - 1]) + [CompactContent(cs[|cs| - 1])]
  }

  /** The body that actually goes out for a request: a request with a
      `systemInstruction` loses it and its stop sequences, gets an output
      budget of 1024 tokens and compacted contents; any other request goes out
      as it is. */
  function Wire(req: Request): (sent: Request)
    ensures !sent.system
    ensures req.system ==> sent.config.Some? && sent.config.value.maxOutputTokens == Some(1024)
    ensures req.system ==> sent.config.value.stopSequences.None?
    ensures !req.system ==> sent == req
  {
    if !req.system then req
    else
      var cfg := req.config.GetOr(NoConfig);
      Request(false,
              match req.contents case None => None case Some(cs) => Some(CompactContents(cs)),
              Some(cfg.(stopSequences := None, maxOutputTokens := Some(1024))))
  }

  /** The wrapper as the source runs it: the parsed body is updated field by
      field, and the contents are rewritten one by one, the record part through
      the key loop. */
  method SanitizeRequest(req: Request) returns (sent: Request)
    ensures sent == Wire(req)
  {
    sent := req;
    if !req.system {
      return;
    }
    sent := sent.(system := false);
    var cfg := if sent.config.Some? then sent.config.value else NoConfig;
    cfg := cfg.(stopSequences := None);
    cfg := cfg.(maxOutputTokens := Some(1024));
    sent := sent.(config := Some(cfg));
    if sent.contents.Some? {
      var cs := sent.contents.value;
      var out: seq<Content> := [];
      for i := 0 to |cs|
        invariant out == CompactContents(cs[..i])
      {
        assert cs[..i + 1][..i] == cs[..i];
        var c := cs[i];
        if c.parts.Some? {
          var ps := c.parts.value;
          var kept: seq<Part> := [];
          for j := 0 to |ps|
            invariant kept == CompactParts(ps[..j])
          {
            assert ps[..j + 1][..j] == ps[..j];
            var p := ps[j];
            if !Dropped(p) {
              if p.RecordPart? {
                var compact := CompactRecord(p.fields);
                p := RecordPart(compact);
              }
              kept := kept + [p];
            }
          }
          assert ps[..|ps|] == ps;
          c := Content(c.role, Some(kept + [TextPart(Hint)]));
        }
        out := out + [c];
      }
      assert cs[..|cs|] == cs;
      sent := sent.(contents := Some(out));
    }
  }

  // ================================================================ replies

  /** An entry of `parts`: its `text` when that is a string. */
  datatype ReplyPart = ReplyPart(text: Option<string>)

  /** A candidate's `content`: an object (with its `parts` when that is an
      array), an array of parts, or something else. */
  datatype ReplyContent = ContentObject(parts: Option<seq<ReplyPart>>) | ContentArray(items: seq<ReplyPart>) | NoContent

  /** A candidate; `finishReason` is "" when absent. */
  datatype Candidate = Candidate(content: ReplyContent, text: Option<string>, finishReason: string)

  /** A parsed reply body: `candidates` when it is an array, `output_text` when
      it is a string, `promptFeedback.blockReason` and `error.message` ("" when
      absent). */
  datatype ReplyBody = ReplyBody(
    candidates: Option<seq<Candidate>>,
    outputText: Option<string>,
    blockReason: string,
    errorMessage: string)

  /** The body `{}`. */
  const EmptyBody: ReplyBody := ReplyBody(None, None, "", "")

  /** A string `text` that is not blank. */
  predicate HasText(t: Option<string>) {
    t.Some? && !IsBlank(t.value)
  }

  /** The non-blank texts of a list of parts, in order. */
  function PartTexts(ps: seq<ReplyPart>): seq<string>
  {
    if ps == [] then []
    else
      var p := ps[|ps| - 1];
      PartTexts(ps[..|ps| - 1]) + (if HasText(p.text) then [p.text.value] else [])
  }

  /** The texts one candidate contributes: its content's parts, then its own
      `text`. */
  function CandidateTexts(c: Candidate): seq<string>
  {
    (match c.content
     case ContentObject(Some(ps)) => PartTexts(ps)
     case ContentArray(ps) => PartTexts(ps)
     case _ => [])
    + (if HasText(c.text) then [c.text.value] else [])
  }

  /** The texts of all candidates, in candidate order. */
  function AllTexts(cs: seq<Candidate>): seq<string>
  {
    if cs == [] then [] else AllTexts(cs[..|cs| - 1]) + CandidateTexts(cs[|cs| - 1])
  }

  /** Every text collected is non-blank. */
  lemma {:induction false} PartTextsNotBlank(ps: seq<ReplyPart>)
    ensures forall i :: 0 <= i < |PartTexts(ps)| ==> !IsBlank(PartTexts(ps)[i])
  {
    if ps != [] {
      PartTextsNotBlank(ps[..|ps| - 1]);
    }
  }

  lemma CandidateTextsNotBlank(c: Candidate)
    ensures forall i :: 0 <= i < |CandidateTexts(c)| ==> !IsBlank(CandidateTexts(c)[i])
  {
    match c.content
    case ContentObject(Some(ps)) => PartTextsNotBlank(ps);
    case ContentArray(ps) => PartTextsNotBlank(ps);
    case _ =>
  }

  lemma {:induction false} AllTextsNotBlank(cs: seq<Candidate>)
    ensures forall i :: 0 <= i < |AllTexts(cs)| ==> !IsBlank(AllTexts(cs)[i])
  {
    if cs != [] {
      AllTextsNotBlank(cs[..|cs| - 1]);
      CandidateTextsNotBlank(cs[|cs| - 1]);
    }
  }

  /** `extractTextFromGeminiResponse`: the collected texts joined by newlines
      and trimmed, else the trimmed `output_text`, else ""; a falsy body
      (`None`) gives "". */
  function ResponseText(data: Option<ReplyBody>): (t: string)
    ensures Trimmed(t)
    ensures data.None? ==> t == ""
  {
    if data.None? then ""
    else
      var texts := AllTexts(data.value.candidates.GetOr([]));
      if texts != [] then Trim(Join(texts, "\n"))
      else if HasText(data.value.outputText) then Trim(data.value.outputText.value)
      else ""
  }

  /** The body of the outer loop of the extraction: what one candidate pushes
      onto `texts`, from its parts (of a content object or a content array) and
      then from its own `text`. */
  method CollectCandidate(cand: Candidate) returns (found: seq<string>)
    ensures found == CandidateTexts(cand)
  {
    var ps: seq<ReplyPart> := [];
    if cand.content.ContentObject? && cand.content.parts.Some? {
      ps := cand.content.parts.value;
    } else if cand.content.ContentArray? {
      ps := cand.content.items;
    }
    found := [];
    for j := 0 to |ps|
      invariant found == PartTexts(ps[..j])
    {
      assert ps[..j + 1][..j] == ps[..j];
      var p := ps[j];
      if p.text.Some? && !IsBlank(p.text.value) {
        found := found + [p.text.value];
      }
    }
    assert ps[..|ps|] == ps;
    if cand.text.Some? && !IsBlank(cand.text.value) {
      found := found + [cand.text.value];
    }
  }

  /** The extraction as the source runs it: a loop over the candidates pushing
      onto `texts`. */
  method ExtractText(data: Option<ReplyBody>) returns (text: string)
    ensures text == ResponseText(data)
  {
    if data.None? {
      return "";
    }
    var texts: seq<string> := [];
    var cands := if data.value.candidates.Some? then data.value.candidates.value else [];
    for i := 0 to |cands|
      invariant texts == AllTexts(cands[..i])
    {
      assert cands[..i + 1][..i] == cands[..i];
      var found := CollectCandidate(cands[i]);
      texts := texts + found;
    }
    assert texts == AllTexts(cands) by {
      assert cands[..|cands|] == cands;
    }
    if |texts| > 0 {
      return Trim(Join(texts, "\n"));
    }
    var out := data.value.outputText;
    if out.Some? && !IsBlank(out.value) {
      return Trim(out.value);
    }
    return "";
  }

  /** A joined list whose first piece is not blank is not blank. */
  lemma JoinNotBlank(parts: seq<string>, sep: string)
    requires parts != [] && !IsBlank(parts[0])
    ensures !IsBlank(Join(parts, sep))
  {
    var k :| 0 <= k < |parts[0]| && !IsSpace(parts[0][k]);
    if |parts| > 1 {
      assert Join(parts, sep)[k] == parts[0][k];
    }
  }

  /** The extracted text is empty exactly when the body has no non-blank text
      anywhere the extraction looks. */
  lemma ResponseTextEmptyIff(data: Option<ReplyBody>)
    ensures ResponseText(data) == "" <==>
      data.None? || (AllTexts(data.value.candidates.GetOr([])) == [] && !HasText(data.value.outputText))
    ensures Trimmed(ResponseText(data))
  {
    if data.Some? {
      var texts := AllTexts(data.value.candidates.GetOr([]));
      if texts != [] {
        AllTextsNotBlank(data.value.candidates.GetOr([]));
        JoinNotBlank(texts, "\n");
      }
    }
  }

  // ================================================================ calls

  /** A reply body as `JSON.parse` leaves it: it did not parse, or it parsed to
      a falsy value (`None`) or to an object. */
  datatype Parse = Unparsable | Parsed(value: Option<ReplyBody>)

  /** What one call to `fetch` yields: a response (its status, its text and that
      text parsed), or the text of the error thrown. */
  datatype CallOutcome = Http(status: int, raw: string, parse: Parse) | Thrown(message: string)

  /** The `error` object of a failed call; a `status` of 0 stands for an absent
      one (both are falsy), "" for an absent string. */
  datatype GeminiError = GeminiError(
    status: int,
    body: string,
    json: Option<ReplyBody>,
    message: string,
    finishReason: string,
    blockReason: string)

  datatype CallResult = Reply(text: string) | Fault(err: GeminiError)

  function CallNth(net: seq<CallOutcome>, i: nat): CallOutcome {
    if i < |net| then net[i] else Thrown("TypeError: Failed to fetch")
  }

  /** `finishReason` of the first candidate, "" when there is none. */
  function FirstFinish(data: Option<ReplyBody>): string {
    if data.Some? && data.value.candidates.Some? && |data.value.candidates.value| > 0
    then data.value.candidates.value[0].finishReason
    else ""
  }

  /** `callGemini`: a non-ok response is an error with its status; an ok one
      without text is an 'Empty response text' error; a thrown error keeps only
      its text. */
  function Classify(o: CallOutcome): (r: CallResult)
    ensures r.Reply? ==> o.Http? && 200 <= o.status <= 299 && r.text != "" && Trimmed(r.text)
    ensures r.Fault? ==> r.err.status == (if o.Http? then o.status else 0)
  {
    match o
    case Thrown(m) => Fault(GeminiError(0, "", None, m, "", ""))
    case Http(status, raw, parse) =>
      if !(200 <= status <= 299) then
        Fault(GeminiError(status, raw, match parse case Unparsable => None case Parsed(v) => v, "", "", ""))
      else
        var data := match parse case Unparsable => Some(EmptyBody) case Parsed(v) => v;
        var text := ResponseText(data);
        if text == "" then
          Fault(GeminiError(status, raw, data, "Empty response text", FirstFinish(data),
                            if data.Some? then data.value.blockReason else ""))
        else Reply(text)
  }

  /** A call yields text exactly on an ok status whose reply holds some, and
      that text is trimmed and non-empty; a failing status keeps the status and
      the body; a thrown error keeps only its message. */
  lemma ClassifySpec(o: CallOutcome)
    ensures var r := Classify(o);
      && (r.Reply? ==> r.text != "" && Trimmed(r.text))
      && (r.Reply? <==> o.Http? && 200 <= o.status <= 299 && r == Reply(ResponseText(
            match o.parse case Unparsable => Some(EmptyBody) case Parsed(v) => v)))
      && (o.Http? && !(200 <= o.status <= 299) ==> r.Fault? && r.err.status == o.status && r.err.body == o.raw)
      && (o.Http? && 200 <= o.status <= 299 && r.Fault? ==>
            var data := match o.parse case Unparsable => Some(EmptyBody) case Parsed(v) => v;
            r.err == GeminiError(o.status, o.raw, data, "Empty response text", FirstFinish(data),
                                 if data.Some? then data.value.blockReason else ""))
      && (o.Thrown? ==> r == Fault(GeminiError(0, "", None, o.message, "", "")))
  {
    if o.Http? && 200 <= o.status <= 299 {
      ResponseTextEmptyIff(match o.parse case Unparsable => Some(EmptyBody) case Parsed(v) => v);
    }
  }

  /** `callGemini` as the source runs it, given what its `fetch` yields. */
  method CallGemini(o: CallOutcome) returns (r: CallResult)
    ensures r == Classify(o)
  {
    if o.Thrown? {
      return Fault(GeminiError(0, "", None, o.message, "", ""));
    }
    if !(200 <= o.status <= 299) {
      var jsonErr := if o.parse.Parsed? then o.parse.value else None;
      return Fault(GeminiError(o.status, o.raw, jsonErr, "", "", ""));
    }
    var data := if o.parse.Parsed? then o.parse.value else Some(EmptyBody);
    var text := ExtractText(data);
    if text == "" {
      var blockReason := if data.Some? then data.value.blockReason else "";
      return Fault(GeminiError(o.status, o.raw, data, "Empty response text", FirstFinish(data), blockReason));
    }
    r := Reply(text);
  }

  // ================================================================ the fallback

  /** An ok reply without text, or an error without a status whose message
      says so. */
  predicate IsEmpty200(e: GeminiError) {
    (e.status == 0 || e.status == 200) && ContainsCi(e.message, "Empty response text")
  }

  /** The reply was cut off by the output budget. */
  predicate IsMaxTokens(e: GeminiError) {
    UpperIs(Or(e.finishReason, FirstFinish(e.json)), "MAX_TOKENS")
  }

  /** A failure worth one tweaked retry. */
  predicate Tweakable(e: GeminiError) {
    IsEmpty200(e) || IsMaxTokens(e)
  }

  /** A 200 reply without text is always retried with the tweak, and takes the
      MAX_TOKENS budget exactly when its first candidate was cut off. */
  lemma EmptyReplyTweakable(o: CallOutcome)
    requires o.Http? && o.status == 200 && Classify(o).Fault?
    ensures Tweakable(Classify(o).err)
    ensures var data := match o.parse case Unparsable => Some(EmptyBody) case Parsed(v) => v;
      IsMaxTokens(Classify(o).err) <==> UpperIs(FirstFinish(data), "MAX_TOKENS")
  {
    var e := Classify(o).err;
    assert e.message == "Empty response text";
    assert MatchesCiAt(e.message, 0, "Empty response text");
  }

  /** A failure worth one plain retry: rate limiting or a server error. */
  predicate Retryable(e: GeminiError) {
    e.status == 429 || 500 <= e.status < 600
  }

  /** `(generationConfig && generationConfig.maxOutputTokens) || 120`. */
  function CurrentMax(cfg: Option<GenConfig>): int {
    if cfg.Some? && cfg.value.maxOutputTokens.Some? && cfg.value.maxOutputTokens.value != 0
    then cfg.value.maxOutputTokens.value
    else 120
  }

  function Min(a: int, b: int): int {
    if a <= b then a else b
  }

  function Max(a: int, b: int): int {
    if a >= b then a else b
  }

  /** The retry budget: doubled within [256, 512] after MAX_TOKENS, at most 100
      after an empty reply. */
  function NewBudget(current: int, maxTokens: bool): int {
    if maxTokens then Max(256, Min(512, current * 2)) else Min(100, current)
  }

  /** The tweaked copy of a request: the new budget and fixed sampling settings,
      and the hint appended to the parts of the last content. */
  function Tweak(body: Request, maxTokens: bool): (t: Request)
    ensures t.system == body.system
    ensures t.contents.Some? <==> body.contents.Some?
    ensures body.contents.Some? ==> |t.contents.value| == |body.contents.value|
    ensures t.config.Some? && t.config.value.maxOutputTokens == Some(NewBudget(CurrentMax(body.config), maxTokens))
  {
    var budget := NewBudget(CurrentMax(body.config), maxTokens);
    var cfg := GenConfig(Some(budget), Some(0.2), Some(0.8), Some(40), Some(["\n\n"]));
    var contents :=
      match body.contents
      case Some(cs) =>
        if cs != [] && cs[|cs| - 1].parts.Some? then
          var u := cs[|cs| - 1];
          Some(cs[..|cs| - 1] + [Content(u.role, Some(u.parts.value + [TextPart(Hint)]))])
        else body.contents
      case None => None;
    Request(body.system, contents, Some(cfg))
  }

  /** The retry budget after MAX_TOKENS lies in [256, 512] and is twice the
      current one when that fits; after an empty reply it is at most 100 and
      never more than the current one. */
  lemma NewBudgetBounds(current: int)
    ensures 256 <= NewBudget(current, true) <= 512
    ensures 128 <= current <= 256 ==> NewBudget(current, true) == 2 * current
    ensures NewBudget(current, false) <= 100 && NewBudget(current, false) <= current
    ensures current <= 100 ==> NewBudget(current, false) == current
  {
  }

  /** Without a budget of its own a request counts as having 120 tokens: a
      MAX_TOKENS retry asks for 256, an empty-reply retry for 100. */
  lemma DefaultBudget(body: Request)
    requires body.config.None? || body.config.value.maxOutputTokens.None?
    ensures Tweak(body, true).config.value.maxOutputTokens == Some(256)
    ensures Tweak(body, false).config.value.maxOutputTokens == Some(100)
  {
  }

  /** The tweak only appends the hint to the last content, leaving the others
      and the rest of its parts as they were. */
  lemma TweakHint(body: Request, maxTokens: bool)
    requires body.contents.Some? && body.contents.value != []
    requires body.contents.value[|body.contents.value| - 1].parts.Some?
    ensures var cs := body.contents.value; var ts := Tweak(body, maxTokens).contents.value;
      && |ts| == |cs|
      && (forall i :: 0 <= i < |cs| - 1 ==> ts[i] == cs[i])
      && ts[|cs| - 1].parts.value == cs[|cs| - 1].parts.value + [TextPart(Hint)]
      && ts[|cs| - 1].role == cs[|cs| - 1].role
  {
  }

  /** The further calls a first failure warrants: the tweaked copy when the
      failure asks for it, then the original body again when it is retryable. */
  function Retries(body: Request, e: GeminiError): (r: seq<Request>)
    ensures |r| == (if Tweakable(e) then 1 else 0) + (if Retryable(e) then 1 else 0)
    ensures Tweakable(e) ==> r[0] == Tweak(body, IsMaxTokens(e))
    ensures Retryable(e) ==> r[|r| - 1] == body
  {
    RetriesOf(body, Tweakable(e), IsMaxTokens(e), Retryable(e))
  }

  /** The further calls, given the three tests on the first failure. */
  function RetriesOf(body: Request, tweak: bool, maxTokens: bool, retry: bool): seq<Request> {
    (if tweak then [Tweak(body, maxTokens)] else []) + (if retry then [body] else [])
  }

  /** Call `i` of the script fails. */
  predicate Failed(net: seq<CallOutcome>, i: nat) {
    Classify(CallNth(net, i)).Fault?
  }

  /** The text call `i` of the script yields, "" when it fails. */
  function Answer(net: seq<CallOutcome>, i: nat): (t: string)
    ensures t == "" <==> Failed(net, i)
    ensures t != "" ==> Trimmed(t)
  {
    ClassifySpec(CallNth(net, i));
    var r := Classify(CallNth(net, i));
    if r.Reply? then r.text else ""
  }

  /** The requests `callGeminiWithFallback` is prepared to send: the body, then
      the retries a first failure warrants. */
  function Plan(body: Request, net: seq<CallOutcome>): (plan: seq<Request>)
    ensures 1 <= |plan| <= 3 && plan[0] == body
  {
    var first := Classify(CallNth(net, 0));
    if first.Reply? then [body] else [body] + Retries(body, first.err)
  }

  /** The outcomes of the first three calls of the script. */
  function Outcomes(net: seq<CallOutcome>): (outs: seq<CallResult>)
    ensures |outs| == 3 && forall j :: 0 <= j < 3 ==> outs[j] == Classify(CallNth(net, j))
  {
    [Classify(CallNth(net, 0)), Classify(CallNth(net, 1)), Classify(CallNth(net, 2))]
  }

  /** Calls `i` onwards of a plan, made one after the other until one succeeds
      or the plan runs out, call `j` having outcome `outs[j]`. The result is
      the outcome of the last call made, with the requests sent. */
  function Follow(plan: seq<Request>, outs: seq<CallResult>, i: nat): (CallResult, seq<Request>)
    requires 1 <= i <= |plan| <= |outs|
    decreases |plan| - i
  {
    if outs[i - 1].Reply? || i == |plan| then (outs[i - 1], plan[..i])
    else Follow(plan, outs, i + 1)
  }

  /** What `callGeminiWithFallback` returns and sends, given the script. */
  function Fallback(body: Request, net: seq<CallOutcome>): (f: (CallResult, seq<Request>))
    ensures 1 <= |f.1| <= 3 && f.1[0] == body
    ensures f.0 == Classify(CallNth(net, |f.1| - 1))
  {
    FollowSpec(Plan(body, net), Outcomes(net), 1);
    Follow(Plan(body, net), Outcomes(net), 1)
  }

  /** Following a plan sends a prefix of it, stops at the first success, and
      sends all of it when every call fails. */
  lemma {:induction false} FollowSpec(plan: seq<Request>, outs: seq<CallResult>, i: nat)
    requires 1 <= i <= |plan| <= |outs|
    ensures var f := Follow(plan, outs, i);
      && i <= |f.1| <= |plan| && f.1 == plan[..|f.1|]
      && f.0 == outs[|f.1| - 1]
      && (forall j :: i - 1 <= j < |f.1| - 1 ==> outs[j].Fault?)
      && (f.0.Fault? ==> f.1 == plan)
    decreases |plan| - i
  {
    if !(outs[i - 1].Reply? || i == |plan|) {
      FollowSpec(plan, outs, i + 1);
    }
  }

  /** Calls `i` to `k - 1` failing and call `k - 1` being the last the plan
      allows or a success, following the plan from `i` sends its first `k`
      requests and yields outcome `k - 1`. */
  lemma {:induction false} FollowUntil(plan: seq<Request>, outs: seq<CallResult>, i: nat, k: nat)
    requires 1 <= i <= k <= |plan| <= |outs|
    requires forall j :: i - 1 <= j < k - 1 ==> outs[j].Fault?
    requires outs[k - 1].Reply? || k == |plan|
    ensures Follow(plan, outs, i) == (outs[k - 1], plan[..k])
    decreases k - i
  {
    if i < k {
      assert outs[i - 1].Fault?;
      FollowUntil(plan, outs, i + 1, k);
    }
  }

  /** The fallback makes one to three calls, the first with the body as given;
      the result is that of the last call; a first success returns at once; a
      third call comes only after the tweaked one failed; and a failure means
      every retry the first failure warrants was made. */
  lemma FallbackSpec(body: Request, net: seq<CallOutcome>)
    ensures var f := Fallback(body, net);
      && 1 <= |f.1| <= 3 && f.1[0] == body
      && f.0 == Classify(CallNth(net, |f.1| - 1))
      && (Classify(CallNth(net, 0)).Reply? <==> f.1 == [body] && f.0.Reply?)
      && (|f.1| == 3 ==> Failed(net, 1))
      && (Classify(CallNth(net, 0)).Fault? ==> f.1 <= [body] + Retries(body, Classify(CallNth(net, 0)).err))
      && (f.0.Fault? ==> f.1 == [body] + Retries(body, Classify(CallNth(net, 0)).err))
  {
    var plan := Plan(body, net);
    var outs := Outcomes(net);
    FollowSpec(plan, outs, 1);
    var f := Fallback(body, net);
    assert f.1[0] == plan[0];
    if |f.1| == 3 {
      assert outs[1].Fault?;
    }
  }

  /** `callGeminiWithFallback`: the first call; on a failure that asks for it,
      one call with the tweaked copy; on rate limiting or a server error, one
      more call with the original body. The first success is returned, else
      the last error. */
  method CallGeminiWithFallback(body: Request, net: seq<CallOutcome>) returns (result: CallResult, calls: seq<Request>)
    ensures (result, calls) == Fallback(body, net)
  {
    var first := CallGemini(CallNth(net, 0));
    if first.Reply? {
      assert Plan(body, net) == [body] && Outcomes(net)[0] == first;
      FollowUntil([body], Outcomes(net), 1, 1);
      assert [body][..1] == [body];
      return first, [body];
    }
    var e := first.err;
    var isEmpty200 := IsEmpty200(e);
    var isMaxTokens := IsMaxTokens(e);
    var retryable := e.status != 0 && (e.status == 429 || (e.status >= 500 && e.status < 600));
    assert retryable == Retryable(e);
    result, calls := RetryAfter(body, e, isEmpty200 || isMaxTokens, isMaxTokens, retryable, net);
  }

  /** The retries after a first failure `first`, as `callGeminiWithFallback`
      makes them, given its tests on that failure: the calls follow the plan
      until one succeeds. */
  method RetryAfter(body: Request, first: GeminiError, tweak: bool, maxTokens: bool, retry: bool, net: seq<CallOutcome>)
    returns (result: CallResult, calls: seq<Request>)
    requires Classify(CallNth(net, 0)) == Fault(first)
    ensures (result, calls) == Follow([body] + RetriesOf(body, tweak, maxTokens, retry), Outcomes(net), 1)
  {
    ghost var plan := [body] + RetriesOf(body, tweak, maxTokens, retry);
    ghost var outs := Outcomes(net);
    calls := [body];
    result := Fault(first);
    if tweak {
      var tweaked := Tweak(body, maxTokens);
      calls := calls + [tweaked];
      result := CallGemini(CallNth(net, 1));
      assert result == outs[1];
      if result.Reply? {
        assert calls == plan[..2];
        FollowUntil(plan, outs, 1, 2);
        return;
      }
    }
    ghost var failed := result;
    if retry {
      calls := calls + [body];
      result := CallGemini(CallNth(net, |calls| - 1));
    }
    assert result == outs[|calls| - 1] && calls == plan;
    assert outs[0].Fault? && (|calls| == 3 ==> outs[1].Fault?) by {
      assert failed.Fault?;
    }
    FollowToEnd(plan, outs, result);
  }

  /** A plan of at most three calls whose calls before the last all fail is
      followed to its end. */
  lemma FollowToEnd(plan: seq<Request>, outs: seq<CallResult>, result: CallResult)
    requires 1 <= |plan| <= 3 <= |outs|
    requires outs[0].Fault? && (|plan| == 3 ==> outs[1].Fault?)
    requires result == outs[|plan| - 1]
    ensures Follow(plan, outs, 1) == (result, plan)
  {
    FollowUntil(plan, outs, 1, |plan|);
    assert plan[..|plan|] == plan;
  }

  // ================================================================ the summary

  /** The user parts of a summary request: a heading, the important criteria
      and the other criteria (each line only when there are some), then the
      record under its own heading. */
  function SummaryParts(criteria: seq<string>, redacted: Record): seq<Part> {
    CriteriaParts(criteria) + [TextPart("İlan Verisi (JSON):"), RecordPart(redacted)]
  }

  function CriteriaParts(criteria: seq<string>): seq<Part> {
    var imp := Important(criteria);
    var normal := Normal(criteria);
    [TextPart("Kriterler:")]
    + (if imp != [] then [TextPart("Önemli: " + Join(imp, " | "))] else [])
    + (if normal != [] then [TextPart("Diğer: " + Join(normal, " | "))] else [])
  }

  /** The request `generateSummaryWithGemini` builds: a system instruction, one
      user content and a budget of 200 tokens. */
  function SummaryBody(criteria: seq<string>, redacted: Record): Request {
    Request(true, Some([Content(Some("user"), Some(SummaryParts(criteria, redacted)))]),
            Some(GenConfig(Some(200), Some(0.2), Some(0.8), Some(40), Some(["\n\n"]))))
  }

  /** `generateSummaryWithGemini`: nothing without a key, a criteria array and a
      record; otherwise the summary request for the redacted record, and the
      trimmed reply, or "" when every call failed. */
  method GenerateSummary(apiKey: string, criteria: Option<seq<string>>, record: Option<Record>, net: seq<CallOutcome>)
    returns (summary: string, calls: seq<Request>)
    ensures apiKey == "" || criteria.None? || record.None? ==> summary == "" && calls == []
    ensures apiKey != "" && criteria.Some? && record.Some? ==>
      && calls == Fallback(SummaryBody(criteria.value, Redacted(record.value)), net).1
      && 1 <= |calls| <= 3 && calls[0] == SummaryBody(criteria.value, Redacted(record.value))
    ensures calls != [] ==> summary == Answer(net, |calls| - 1)
  {
    if apiKey == "" || criteria.None? || record.None? {
      return "", [];
    }
    var redacted := Redact(record.value);
    var body := SummaryBody(criteria.value, redacted);
    summary, calls := AskForText(body, net);
  }

  /** The call with fallbacks and its reply trimmed, "" when every call failed. */
  method AskForText(body: Request, net: seq<CallOutcome>) returns (text: string, calls: seq<Request>)
    ensures calls == Fallback(body, net).1
    ensures 1 <= |calls| <= 3 && calls[0] == body
    ensures text == "" <==> Failed(net, |calls| - 1)
    ensures text == Answer(net, |calls| - 1)
  {
    var result;
    result, calls := CallGeminiWithFallback(body, net);
    FallbackSpec(body, net);
    ClassifySpec(CallNth(net, |calls| - 1));
    if result.Fault? {
      return "", calls;
    }
    TrimNoop(result.text);
    text := Trim(result.text);
  }

  /** `CompactParts` works part by part. */
  lemma {:induction false} CompactPartsAppend(a: seq<Part>, b: seq<Part>)
    ensures CompactParts(a + b) == CompactParts(a) + CompactParts(b)
    decreases |b|
  {
    if b == [] {
      assert a + b == a;
    } else {
      assert (a + b)[..|a + b| - 1] == a + b[..|b| - 1];
      assert (a + b)[|a + b| - 1] == b[|b| - 1];
      CompactPartsAppend(a, b[..|b| - 1]);
    }
  }

  /** The parts of the summary request the wrapper keeps, in the order they go
      out: everything but the other criteria, the record compacted, then the
      hint. */
  function SentSummaryParts(criteria: seq<string>, redacted: Record): seq<Part> {
    SentCriteriaParts(criteria) + [TextPart("İlan Verisi (JSON):"), RecordPart(Compacted(redacted)), TextPart(Hint)]
  }

  function SentCriteriaParts(criteria: seq<string>): seq<Part> {
    var imp := Important(criteria);
    [TextPart("Kriterler:")] + (if imp != [] then [TextPart("Önemli: " + Join(imp, " | "))] else [])
  }

  /** A text part that starts like neither the style sample nor the other
      criteria is kept. */
  lemma KeptText(t: string)
    requires |t| >= 2 && RegexFold(t[0]) != 'D'
    requires RegexFold(t[0]) != 'Ö' || RegexFold(t[1]) != 'R'
    ensures !Dropped(TextPart(t))
  {
    assert RegexFold("Örnek biçem:"[0]) == 'Ö' && RegexFold("Örnek biçem:"[1]) == 'R';
    assert RegexFold("Diğer"[0]) == 'D';
  }

  /** A single part goes out compacted, or not at all. */
  lemma CompactPart(p: Part)
    ensures CompactParts([p]) == if Dropped(p) then [] else if p.RecordPart? then [RecordPart(Compacted(p.fields))] else [p]
  {
    assert [p][..0] == [];
  }

  /** The other criteria never reach the API. */
  lemma OtherCriteriaDropped(normal: seq<string>)
    ensures Dropped(TextPart("Diğer: " + Join(normal, " | ")))
  {
    var t := "Diğer: " + Join(normal, " | ");
    assert t[..5] == "Diğer" && t[5] == ':';
    assert MatchesCiAt(t, 0, "Diğer");
  }

  /** The record goes out compacted after its heading. */
  lemma SummaryTailSent(redacted: Record)
    ensures CompactParts([TextPart("İlan Verisi (JSON):"), RecordPart(redacted)])
         == [TextPart("İlan Verisi (JSON):"), RecordPart(Compacted(redacted))]
  {
    var json := TextPart("İlan Verisi (JSON):");
    var tail := [json, RecordPart(redacted)];
    KeptText("İlan Verisi (JSON):");
    assert CompactParts(tail[..1]) == [json] by {
      CompactPart(json);
      assert tail[..1] == [json];
    }
  }

  /** Of the criteria, only the important ones reach the API. */
  lemma CriteriaPartsSent(criteria: seq<string>)
    ensures CompactParts(CriteriaParts(criteria)) == SentCriteriaParts(criteria)
  {
    var imp := Important(criteria);
    var normal := Normal(criteria);
    var head := [TextPart("Kriterler:")];
    var ip := if imp != [] then [TextPart("Önemli: " + Join(imp, " | "))] else [];
    var np := if normal != [] then [TextPart("Diğer: " + Join(normal, " | "))] else [];
    assert CompactParts(head) == head by {
      KeptText("Kriterler:");
      CompactPart(head[0]);
    }
    assert CompactParts(ip) == ip by {
      if imp != [] {
        KeptText("Önemli: " + Join(imp, " | "));
        CompactPart(ip[0]);
      }
    }
    assert CompactParts(np) == [] by {
      if normal != [] {
        OtherCriteriaDropped(normal);
        CompactPart(np[0]);
      }
    }
    CompactPartsAppend(head, ip);
    CompactPartsAppend(head + ip, np);
  }

  /** What the API receives of the parts of a summary request. */
  lemma SummaryPartsSent(criteria: seq<string>, redacted: Record)
    ensures CompactParts(SummaryParts(criteria, redacted)) + [TextPart(Hint)] == SentSummaryParts(criteria, redacted)
  {
    CriteriaPartsSent(criteria);
    SummaryTailSent(redacted);
    CompactPartsAppend(CriteriaParts(criteria), [TextPart("İlan Verisi (JSON):"), RecordPart(redacted)]);
  }

  /** What the API receives of a summary request: one user content holding the
      parts above, with
      the wrapper's budget of 1024 tokens and no stop sequences. */
  lemma WireOfSummary(criteria: seq<string>, redacted: Record)
    ensures var sent := Wire(SummaryBody(criteria, redacted));
      && sent.contents == Some([Content(Some("user"), Some(SentSummaryParts(criteria, redacted)))])
      && sent.config == Some(GenConfig(Some(1024), Some(0.2), Some(0.8), Some(40), None))
  {
    SummaryPartsSent(criteria, redacted);
    var c := Content(Some("user"), Some(SummaryParts(criteria, redacted)));
    assert CompactContents([c]) == [CompactContent(c)];
  }

  // ================================================================ error text

  /** `formatGeminiError`: "HTTP <status>" when there is a status, then, after
      " - ", the first of the message, the reply's error message and the
      first 200 characters of the body, followed by the block and the finish
      reasons when there are any. */
  function FormatGeminiError(err: Option<GeminiError>): (text: string)
    ensures err.Some? && err.value.status != 0 ==> StartsWith(text, "HTTP " + IntToString(err.value.status))
  {
    match err
    case None => "Bilinmeyen hata"
    case Some(e) =>
      var status := if e.status != 0 then "HTTP " + IntToString(e.status) else "";
      var msg := Join(Truthy(MessageParts(e)), " ");
      var parts := Truthy([status, msg]);
      assert status != "" ==> parts == [status] + Truthy([msg]);
      JoinStartsWith(parts, " - ");
      Join(parts, " - ")
  }

  /** The lead text of an error: its message, else the reply's error message,
      else the start of the body. */
  function LeadOf(e: GeminiError): string {
    var jmsg := if e.json.Some? then e.json.value.errorMessage else "";
    Or(e.message, Or(jmsg, Take(e.body, 200)))
  }

  function BlockOf(e: GeminiError): string {
    Or(e.blockReason, if e.json.Some? then e.json.value.blockReason else "")
  }

  function FinishOf(e: GeminiError): string {
    Or(e.finishReason, FirstFinish(e.json))
  }

  /** `msgParts`: the lead text, then the reasons that are present. */
  function MessageParts(e: GeminiError): (r: seq<string>)
    ensures |r| >= 1 && r[0] == LeadOf(e)
    ensures forall i :: 1 <= i < |r| ==> r[i] != ""
  {
    [LeadOf(e)]
    + (if BlockOf(e) != "" then ["blockReason=" + BlockOf(e)] else [])
    + (if FinishOf(e) != "" then ["finishReason=" + FinishOf(e)] else [])
  }

  /** The text is empty exactly when the error has no status, no lead text and
      no reasons. */
  lemma FormatEmptyIff(e: GeminiError)
    ensures FormatGeminiError(Some(e)) == "" <==>
      e.status == 0 && LeadOf(e) == "" && BlockOf(e) == "" && FinishOf(e) == ""
  {
    var parts := MessageParts(e);
    var msg := Join(Truthy(parts), " ");
    JoinTruthyEmpty(parts, " ");
    var status := if e.status != 0 then "HTTP " + IntToString(e.status) else "";
    JoinTruthyEmpty([status, msg], " ");
    if BlockOf(e) != "" {
      assert parts[1] != "";
    }
    if FinishOf(e) != "" {
      assert parts[|parts| - 1] != "";
    }
  }

  /** A thrown error reads as its own text. */
  lemma FormatThrown(m: string)
    ensures FormatGeminiError(Some(Classify(Thrown(m)).err)) == m
  {
    var e := Classify(Thrown(m)).err;
    assert MessageParts(e) == [m];
    if m != "" {
      assert Truthy([m]) == [m];
      assert Truthy(["", m]) == [m];
    } else {
      assert Truthy([m]) == [];
      assert Truthy(["", ""]) == [];
    }
  }

  /** A failed status with a body that is not JSON reads as "HTTP <status>",
      then the start of the body when there is one. */
  lemma FormatHttpFailure(status: int, raw: string)
    requires !(200 <= status <= 299) && status != 0
    ensures FormatGeminiError(Some(Classify(Http(status, raw, Unparsable)).err))
      == "HTTP " + IntToString(status) + (if raw == "" then "" else " - " + Take(raw, 200))
  {
    var e := Classify(Http(status, raw, Unparsable)).err;
    assert e.status == status && MessageParts(e) == [Take(raw, 200)] by {
      UnparsableFailure(status, raw);
    }
    FormatStatusAndLead(e, Take(raw, 200));
    assert Take(raw, 200) == "" <==> raw == "";
  }

  /** The error of a failed status whose body is not JSON: the status, and
      the start of the body as its only message part. */
  lemma UnparsableFailure(status: int, raw: string)
    requires !(200 <= status <= 299)
    ensures var e := Classify(Http(status, raw, Unparsable)).err;
      e.status == status && MessageParts(e) == [Take(raw, 200)]
  {
  }

  /** An error with a status and a single message part reads "HTTP <status>",
      then " - " and that part when it is not empty. */
  lemma FormatStatusAndLead(e: GeminiError, lead: string)
    requires e.status != 0 && MessageParts(e) == [lead]
    ensures FormatGeminiError(Some(e)) == "HTTP " + IntToString(e.status) + (if lead == "" then "" else " - " + lead)
  {
    var st := "HTTP " + IntToString(e.status);
    if lead != "" {
      assert Truthy([lead]) == [lead];
      assert Truthy([st, lead]) == [st, lead];
      assert [st, lead][1..] == [lead];
      assert Join([st, lead], " - ") == st + " - " + lead;
    } else {
      assert Truthy([lead]) == [];
      assert Truthy([st, ""]) == [st];
    }
  }

  // ================================================================ the key test

  /** The request `testGeminiAPI` sends: no system instruction, one user text
      and a budget of 8 tokens at temperature 0. */
  const TestBody: Request := Request(false,
    Some([Content(Some("user"), Some([TextPart("Sadece şu metni aynen döndür: Merhaba.")]))]),
    Some(GenConfig(Some(8), Some(0.0), None, None, None)))

  /** A run of `c` at the start of `s`: its length. */
  function LeadRun(s: string, c: char): (n: nat)
    ensures n <= |s| && (forall k :: 0 <= k < n ==> s[k] == c)
    ensures n == |s| || s[n] != c
  {
    if s != [] && s[0] == c then 1 + LeadRun(s[1..], c) else 0
  }

  /** A run of `c` at the end of `s`: its length. */
  function TrailRun(s: string, c: char): (n: nat)
    ensures n <= |s| && (forall k :: |s| - n <= k < |s| ==> s[k] == c)
    ensures n == |s| || s[|s| - n - 1] != c
  {
    if s != [] && s[|s| - 1] == c then 1 + TrailRun(s[..|s| - 1], c) else 0
  }

  /** `r` stands at position `a` of `s`, with nothing but `c` before and after it. */
  predicate StrippedAt(s: string, c: char, a: int, r: string) {
    && 0 <= a <= |s| - |r| && s[a..a + |r|] == r
    && (forall k :: 0 <= k < a ==> s[k] == c)
    && (forall k :: a + |r| <= k < |s| ==> s[k] == c)
  }

  /** `s.replace(/^c+|c+$/g, '')`: the leading run goes, then the trailing run
      of what is left. */
  function StripRuns(s: string, c: char): (r: string)
    ensures |r| <= |s|
    ensures r != [] ==> r[0] != c && r[|r| - 1] != c
    ensures exists a :: StrippedAt(s, c, a, r)
  {
    var a := LeadRun(s, c);
    var rest := s[a..];
    var r := rest[..|rest| - TrailRun(rest, c)];
    assert s[a..a + |r|] == r;
    assert forall k :: a + |r| <= k < |s| ==> s[k] == rest[k - a];
    assert StrippedAt(s, c, a, r);
    r
  }

  /** The greeting `testGeminiAPI` reports: the reply without surrounding
      quotes, or "Merhaba." when that mentions it or nothing is left. */
  function NormalizeGreeting(text: string): (r: string)
    ensures r == "Merhaba." || (r != "" && !ContainsCi(r, "merhaba"))
  {
    var t := StripRuns(StripRuns(Trim(text), '"'), '\'');
    if ContainsCi(t, "merhaba") || t == "" then "Merhaba." else t
  }

  /** A reply that mentions the greeting in any letter case is reported as
      exactly "Merhaba.". */
  lemma GreetingFound(text: string)
    requires var t := StripRuns(StripRuns(Trim(text), '"'), '\''); ContainsCi(t, "merhaba")
    ensures NormalizeGreeting(text) == "Merhaba."
  {
  }

  /** The other two cases: nothing left gives "Merhaba." as well, and a reply
      that does not mention the greeting comes back without its quotes and
      otherwise unchanged. */
  lemma GreetingKept(text: string)
    ensures var t := StripRuns(StripRuns(Trim(text), '"'), '\'');
      && (t == "" ==> NormalizeGreeting(text) == "Merhaba.")
      && (t != "" && !ContainsCi(t, "merhaba") ==> NormalizeGreeting(text) == t)
  {
  }

  /** A text that is not itself quoted or padded loses exactly the double
      quotes put around it. */
  lemma StripQuotes(w: string)
    requires w != [] && w[0] != '"' && w[|w| - 1] != '"'
    ensures StripRuns("\"" + w + "\"", '"') == w
  {
    var s := "\"" + w + "\"";
    assert s[1..] == w + "\"";
    assert LeadRun(s[1..], '"') == 0;
    var rest := s[1..];
    assert rest[..|rest| - 1] == w;
    assert TrailRun(rest[..|rest| - 1], '"') == 0;
  }

  /** A quoted reply that does not greet is reported as the text inside the
      quotes. */
  lemma GreetingUnquoted(w: string)
    requires w != [] && Trimmed(w) && !ContainsCi(w, "merhaba")
    requires w[0] != '"' && w[|w| - 1] != '"' && w[0] != '\'' && w[|w| - 1] != '\''
    ensures NormalizeGreeting("\"" + w + "\"") == w
  {
    var s := "\"" + w + "\"";
    assert s[0] == '"' && s[|s| - 1] == '"';
    TrimNoop(s);
    StripQuotes(w);
    assert LeadRun(w, '\'') == 0 && w[0..] == w;
    assert TrailRun(w, '\'') == 0 && w[..|w|] == w;
  }

  datatype TestResult = TestOk(text: string) | TestFailed(message: string)

  /** How the outcome of the last call is reported: a failure by its error
      text, a reply by the greeting in it. */
  function TestVerdict(c: CallResult): (r: TestResult)
    ensures r.TestOk? <==> c.Reply?
    ensures r.TestOk? ==> r.text == "Merhaba." || (r.text != "" && !ContainsCi(r.text, "merhaba"))
  {
    match c
    case Fault(e) => TestFailed(FormatGeminiError(Some(e)))
    case Reply(t) => TestOk(NormalizeGreeting(t))
  }

  /** `testGeminiAPI`: no key fails at once; otherwise the test request goes
      through the fallbacks, a failure is reported in the error text and a
      reply as the greeting. */
  method TestGeminiApi(apiKey: string, net: seq<CallOutcome>) returns (r: TestResult, calls: seq<Request>)
    ensures apiKey == "" ==> r == TestFailed("API anahtarı girilmemiş.") && calls == []
    ensures apiKey != "" ==> calls == Fallback(TestBody, net).1 && 1 <= |calls| <= 3 && calls[0] == TestBody
    ensures calls != [] ==> r == TestVerdict(Classify(CallNth(net, |calls| - 1)))
  {
    if apiKey == "" {
      return TestFailed("API anahtarı girilmemiş."), [];
    }
    r, calls := SendTest(TestBody, net);
  }

  /** The rest of `testGeminiAPI` once its request is built: the call with
      fallbacks and the report of its outcome. */
  method SendTest(body: Request, net: seq<CallOutcome>) returns (r: TestResult, calls: seq<Request>)
    ensures calls == Fallback(body, net).1
    ensures 1 <= |calls| <= 3 && calls[0] == body
    ensures r == TestVerdict(Classify(CallNth(net, |calls| - 1)))
  {
    var result;
    result, calls := CallGeminiWithFallback(body, net);
    assert 1 <= |calls| <= 3 && calls[0] == body && result == Classify(CallNth(net, |calls| - 1)) by {
      FallbackSpec(body, net);
    }
    r := Report(result);
  }

  /** The report of the outcome: the formatted error, or the greeting read
      from the trimmed reply. */
  method Report(result: CallResult) returns (r: TestResult)
    ensures r == TestVerdict(result)
  {
    if result.Fault? {
      return TestFailed(FormatGeminiError(Some(result.err)));
    }
    TrimIdempotent(result.text);
    r := TestOk(NormalizeGreeting(Trim(result.text)));
  }

  /** A test reply cut off by its 8-token budget is retried with 256 tokens. */
  lemma TestRetryBudget()
    ensures Tweak(TestBody, true).config.value.maxOutputTokens == Some(256)
    ensures Tweak(TestBody, false).config.value.maxOutputTokens == Some(8)
  {
  }
}
