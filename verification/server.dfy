/**
 * The transcription service's request-level rules. The database is a map
 * from transcript id to record held by a `Store` object; token decoding,
 * JSON encoding and the speech recogniser are oracles passed in as values
 * (a decode function, a codec, a sequence of recognised segments).
 */
module TranscriptApi {
  import opened Wrappers
  import opened Text
  import Recorder

  // ---------------------------------------------------------------------
  // Errors
  // ---------------------------------------------------------------------

  datatype HttpError = HttpError(code: nat, detail: string)

  const NotAuthenticated := HttpError(401, "Not authenticated")
  const MissingToken := HttpError(401, "Missing token")
  const InvalidToken := HttpError(401, "Invalid token")
  const UserNotFound := HttpError(401, "User not found")
  const NotFound := HttpError(404, "Not found")
  const TranscriptNotFound := HttpError(404, "Transcript not found")
  /**
   * The framework's answer to a path parameter that fails its validation.
   * Its real detail is a list of validation errors; the status phrase
   * stands in for it here.
   */
  const InvalidPath := HttpError(422, "Unprocessable Entity")
  /** The framework's answer to an exception nobody catches. */
  const InternalError := HttpError(500, "Internal Server Error")

  // ---------------------------------------------------------------------
  // Authentication
  // ---------------------------------------------------------------------

  const BearerPrefix := "Bearer "

  /** The index of the first space of `s`; `s.split(" ", 1)[1]` is what follows it. */
  function FirstSpace(s: string): (i: nat)
    requires ' ' in s
    ensures i < |s| && s[i] == ' '
    ensures forall j :: 0 <= j < i ==> s[j] != ' '
  {
    if s[0] == ' ' then 0 else 1 + FirstSpace(s[1..])
  }

  /** The token of an `Authorization` header: present only for a header that starts with "Bearer ". */
  function BearerToken(header: Option<string>): (token: Option<string>)
    ensures token.Some? <==> header.Some? && BearerPrefix <= header.value
    ensures token.Some? ==> header == Some(BearerPrefix + token.value)
  {
    if header.Some? && BearerPrefix <= header.value then
      var h := header.value;
      assert h[..7] == BearerPrefix && h[6] == ' ';
      assert FirstSpace(h) == 6;
      var token := h[FirstSpace(h) + 1..];
      assert h == h[..7] + token;
      Some(token)
    else
      None
  }

  /** The "sub" claim of a decoded token, and whether `int()` accepts it. */
  datatype Subject = NoSubject | Numeric(id: int) | NotNumeric

  /** What decoding a token gives: a rejection (bad signature, expired) or its payload. */
  datatype Claims = Undecodable | Payload(sub: Subject)

  /**
   * `get_current_user`: the header must carry a bearer token whose payload
   * names an existing user. A claim that `int()` rejects raises an error
   * nothing catches.
   */
  function Authenticate(header: Option<string>, decode: string -> Claims, users: set<int>): (r: Result<int, HttpError>)
    ensures r.Ok? <==>
      && BearerToken(header).Some?
      && decode(BearerToken(header).value).Payload?
      && decode(BearerToken(header).value).sub.Numeric?
      && decode(BearerToken(header).value).sub.id in users
    ensures r.Ok? ==>
      && header == Some(BearerPrefix + BearerToken(header).value)
      && decode(BearerToken(header).value) == Payload(Numeric(r.value))
    ensures BearerToken(header).None? ==> r == Err(NotAuthenticated)
    ensures BearerToken(header).Some? ==>
      var claims := decode(BearerToken(header).value);
      && (claims == Undecodable || claims == Payload(NoSubject) ==> r == Err(InvalidToken))
      && (claims == Payload(NotNumeric) ==> r == Err(InternalError))
      && (claims.Payload? && claims.sub.Numeric? && claims.sub.id !in users ==> r == Err(UserNotFound))
  {
    match BearerToken(header)
    case None => Err(NotAuthenticated)
    case Some(token) =>
      match decode(token)
      case Undecodable => Err(InvalidToken)
      case Payload(NoSubject) => Err(InvalidToken)
      case Payload(NotNumeric) => Err(InternalError)
      case Payload(Numeric(id)) => if id in users then Ok(id) else Err(UserNotFound)
  }

  /**
   * The delete endpoint's own check: a different message for a missing
   * header, no check that the user exists, and a missing "sub" reaches
   * `int(None)`, an error nothing catches.
   */
  function DeleteCaller(header: Option<string>, decode: string -> Claims): (r: Result<int, HttpError>)
    ensures r.Ok? <==>
      && BearerToken(header).Some?
      && decode(BearerToken(header).value).Payload?
      && decode(BearerToken(header).value).sub.Numeric?
    ensures r.Ok? ==> decode(BearerToken(header).value) == Payload(Numeric(r.value))
    ensures BearerToken(header).None? ==> r == Err(MissingToken)
    ensures BearerToken(header).Some? ==>
      var claims := decode(BearerToken(header).value);
      && (claims == Undecodable ==> r == Err(InvalidToken))
      && (claims == Payload(NoSubject) || claims == Payload(NotNumeric) ==> r == Err(InternalError))
  {
    match BearerToken(header)
    case None => Err(MissingToken)
    case Some(token) =>
      match decode(token)
      case Undecodable => Err(InvalidToken)
      case Payload(NoSubject) => Err(InternalError)
      case Payload(NotNumeric) => Err(InternalError)
      case Payload(Numeric(id)) => Ok(id)
  }

  /** Every caller the shared check admits is admitted by the delete check, as the same user. */
  lemma DeleteCheckIsLaxer(header: Option<string>, decode: string -> Claims, users: set<int>)
    ensures Authenticate(header, decode, users).Ok? ==>
      DeleteCaller(header, decode) == Authenticate(header, decode, users)
  {
  }

  // ---------------------------------------------------------------------
  // The stored audio file's name
  // ---------------------------------------------------------------------

  /** The index of the last `c` in `s`, or -1. */
  function LastIndex(s: string, c: char): (i: int)
    ensures -1 <= i < |s|
    ensures i >= 0 ==> s[i] == c
    ensures forall j :: i < j < |s| ==> s[j] != c
  {
    if s == [] then -1
    else if s[|s| - 1] == c then |s| - 1
    else LastIndex(s[..|s| - 1], c)
  }

  /**
   * `os.path.splitext(p)[1]` on POSIX: from the last '.' on, provided it
   * follows the last '/' and some character before it in the last path
   * component is not a '.' (so ".bashrc" has no extension).
   */
  function Extension(p: string): (ext: string)
    ensures |ext| <= |p|
    ensures ext == [] || (ext[0] == '.' && ext == p[|p| - |ext|..])
    ensures '/' !in ext
    ensures forall i :: 1 <= i < |ext| ==> ext[i] != '.'
    ensures ext != [] <==>
      exists k, d :: 0 <= k < d < |p| && p[d] == '.' && p[k] != '.' && '/' !in p[k..]
  {
    var sep := LastIndex(p, '/');
    var dot := LastIndex(p, '.');
    if dot > sep && exists k :: sep + 1 <= k < dot && p[k] != '.' then
      var ext := p[dot..];
      assert forall i :: 1 <= i < |ext| ==> ext[i] == p[dot + i];
      ext
    else []
  }

  /**
   * The stored file's name: a fresh hexadecimal id, then the uploaded name's
   * extension, or ".webm" when it has none. It never contains a '/'.
   */
  function StoredName(hexId: string, filename: Option<string>): (name: string)
    ensures hexId <= name && |name| > |hexId| && name[|hexId|] == '.'
    ensures forall i :: |hexId| <= i < |name| ==> name[i] != '/'
    ensures Extension(filename.GetOr([])) != [] ==> name == hexId + Extension(filename.GetOr([]))
    ensures Extension(filename.GetOr([])) == [] ==> name == hexId + ".webm"
  {
    var ext := Extension(filename.GetOr([]));
    var suffix := if ext != [] then ext else ".webm";
    assert forall i :: 0 <= i < |suffix| ==> suffix[i] != '/';
    hexId + suffix
  }

  /** The recorder's two file names keep their extension on the server. */
  lemma ClientNamesKeepExtension(hexId: string, webmSupported: bool)
    ensures StoredName(hexId, Some(Recorder.FileName(Recorder.Encoding(webmSupported))))
      == hexId + if webmSupported then ".webm" else ".mp4"
  {
    Recorder.EncodingNames(webmSupported);
    var name := Recorder.FileName(Recorder.Encoding(webmSupported));
    assert name[0] == 'c' && name[4] == '.';
    assert forall j :: 0 <= j < |name| ==> name[j] != '/';
    assert forall j :: 4 < j < |name| ==> name[j] != '.';
    assert LastIndex(name, '.') == 4;
  }

  /** A missing name, a name without a dot and a dot-file all fall back to ".webm". */
  lemma FallbackExtension(hexId: string, name: string)
    requires name == [] || '.' !in name || (name[0] == '.' && '.' !in name[1..] && '/' !in name)
    ensures StoredName(hexId, None) == hexId + ".webm"
    ensures StoredName(hexId, Some(name)) == hexId + ".webm"
  {
    if name != [] && name[0] == '.' && '.' !in name[1..] {
      assert forall j :: 1 <= j < |name| ==> name[j] == name[1..][j - 1];
      assert LastIndex(name, '.') == 0;
    }
  }

  // ---------------------------------------------------------------------
  // Recognised segments to transcript text and word list
  // ---------------------------------------------------------------------

  /** One word of the stored word list, with its timing in seconds. */
  datatype Word = Word(word: string, start: real, end: real)

  /** One word as the recogniser reports it. */
  datatype SegmentWord = SegmentWord(word: string, start: real, end: real, probability: real)

  /** One recognised segment: its text and, when word timings were asked for, its words. */
  datatype Segment = Segment(text: string, words: Option<seq<SegmentWord>>)

  function Entry(w: SegmentWord): Word {
    Word(w.word, w.start, w.end)
  }

  /** The stored entries of one segment, in order. */
  function SegmentEntries(seg: Segment): (entries: seq<Word>)
    ensures |entries| == if seg.words.Some? then |seg.words.value| else 0
    ensures seg.words.Some? ==> forall j :: 0 <= j < |entries| ==> entries[j] == Entry(seg.words.value[j])
  {
    if seg.words.Some? then seq(|seg.words.value|, j requires 0 <= j < |seg.words.value| => Entry(seg.words.value[j]))
    else []
  }

  /** All segments' entries, segment after segment. */
  function Flatten(segments: seq<Segment>): seq<Word>
  {
    if segments == [] then []
    else Flatten(segments[..|segments| - 1]) + SegmentEntries(segments[|segments| - 1])
  }

  /** The number of words the segments report. */
  function TotalWords(segments: seq<Segment>): nat
  {
    if segments == [] then 0
    else
      var w := segments[|segments| - 1].words;
      TotalWords(segments[..|segments| - 1]) + if w.Some? then |w.value| else 0
  }

  /** The non-empty segment texts, in order. */
  function SpokenTexts(segments: seq<Segment>): seq<string>
  {
    if segments == [] then []
    else
      var t := segments[|segments| - 1].text;
      SpokenTexts(segments[..|segments| - 1]) + if t != [] then [t] else []
  }

  /** `"".join(texts)`. */
  function Join(texts: seq<string>): string
  {
    if texts == [] then [] else Join(texts[..|texts| - 1]) + texts[|texts| - 1]
  }

  /** Every segment's text, empty or not. */
  function AllTexts(segments: seq<Segment>): seq<string>
  {
    seq(|segments|, i requires 0 <= i < |segments| => segments[i].text)
  }

  /** The word list has one entry per reported word. */
  lemma {:induction false} FlattenLength(segments: seq<Segment>)
    ensures |Flatten(segments)| == TotalWords(segments)
    decreases |segments|
  {
    if segments != [] {
      FlattenLength(segments[..|segments| - 1]);
    }
  }

  /** Skipping empty texts changes nothing: the text is all segment texts joined. */
  lemma {:induction false} SkippingEmptyTextsIsHarmless(segments: seq<Segment>)
    ensures Join(SpokenTexts(segments)) == Join(AllTexts(segments))
    decreases |segments|
  {
    if segments != [] {
      var init := segments[..|segments| - 1];
      var last := segments[|segments| - 1];
      SkippingEmptyTextsIsHarmless(init);
      assert AllTexts(segments)[..|segments| - 1] == AllTexts(init);
      var kept := if last.text != [] then [last.text] else [];
      JoinAppend(SpokenTexts(init), kept);
      if last.text != [] {
        assert Join([last.text]) == Join([]) + last.text;
      }
    }
  }

  lemma {:induction false} JoinAppend(a: seq<string>, b: seq<string>)
    ensures Join(a + b) == Join(a) + Join(b)
    decreases |b|
  {
    if b == [] {
      assert a + b == a;
    } else {
      assert (a + b)[..|a + b| - 1] == a + b[..|b| - 1];
      JoinAppend(a, b[..|b| - 1]);
    }
  }

  lemma FlattenStep(segments: seq<Segment>, i: nat)
    requires i < |segments|
    ensures Flatten(segments[..i + 1]) == Flatten(segments[..i]) + SegmentEntries(segments[i])
    ensures SpokenTexts(segments[..i + 1])
      == SpokenTexts(segments[..i]) + if segments[i].text != [] then [segments[i].text] else []
  {
    assert segments[..i + 1][..i] == segments[..i];
  }

  /** The inner loop of the aggregation: one segment's words appended, in order. */
  method AppendEntries(words: seq<Word>, seg: Segment) returns (result: seq<Word>)
    ensures result == words + SegmentEntries(seg)
  {
    result := words;
    if seg.words.Some? && seg.words.value != [] {
      var ws := seg.words.value;
      for j := 0 to |ws|
        invariant result == words + SegmentEntries(seg)[..j]
      {
        assert SegmentEntries(seg)[..j + 1] == SegmentEntries(seg)[..j] + [Entry(ws[j])];
        result := result + [Word(ws[j].word, ws[j].start, ws[j].end)];
      }
      assert SegmentEntries(seg)[..|ws|] == SegmentEntries(seg);
    }
  }

  /**
   * The aggregation loop of `transcribe`: the text is the non-empty segment
   * texts joined and stripped, the word list every segment's words in order.
   */
  method Collect(segments: seq<Segment>) returns (text: string, words: seq<Word>)
    ensures text == Trim(Python, Join(SpokenTexts(segments)))
    ensures words == Flatten(segments)
    ensures |words| == TotalWords(segments)
  {
    words := [];
    var texts: seq<string> := [];
    for i := 0 to |segments|
      invariant texts == SpokenTexts(segments[..i])
      invariant words == Flatten(segments[..i])
    {
      FlattenStep(segments, i);
      if segments[i].text != [] {
        texts := texts + [segments[i].text];
      }
      words := AppendEntries(words, segments[i]);
    }
    assert segments[..|segments|] == segments;
    text := Trim(Python, Join(texts));
    FlattenLength(segments);
  }

  // ---------------------------------------------------------------------
  // Records and their serialisation
  // ---------------------------------------------------------------------

  /** A transcript row; timestamps are abstract clock readings. */
  datatype Transcript = Transcript(
    id: int, userId: int, audioPath: Option<string>, text: Option<string>,
    wordsJson: Option<string>, createdAt: int, updatedAt: int)

  /** A transcript as the API returns it. */
  datatype Serialized = Serialized(
    id: int, audio: Option<string>, text: string, words: seq<Word>, createdAt: int, updatedAt: int)

  /** One line of the listing. */
  datatype ListItem = ListItem(id: int, preview: string, audio: Option<string>, createdAt: int)

  /** JSON encoding of word lists and decoding of stored text (None: the text does not parse). */
  datatype JsonCodec = JsonCodec(dumps: seq<Word> -> string, loads: string -> Option<seq<Word>>)

  /**
   * What the service relies on from JSON for the one word list it stores:
   * its encoding is not empty and reads back as that list.
   */
  predicate RoundTrips(codec: JsonCodec, ws: seq<Word>) {
    codec.dumps(ws) != [] && codec.loads(codec.dumps(ws)) == Some(ws)
  }

  /** Every word list has a codec that carries it. */
  lemma RoundTripsSatisfiable(ws: seq<Word>)
    ensures exists codec :: RoundTrips(codec, ws)
  {
    var codec := JsonCodec(_ => "[]", _ => Some(ws));
    assert RoundTrips(codec, ws);
  }

  /**
   * `_serialize_item`: never fails; a missing text reads as "", and a word
   * list that is missing, empty or unreadable reads as the decoding of "[]"
   * or as [].
   */
  function Serialize(item: Transcript, loads: string -> Option<seq<Word>>): (r: Serialized)
    ensures r.id == item.id && r.audio == item.audioPath
    ensures r.createdAt == item.createdAt && r.updatedAt == item.updatedAt
    ensures r.text == if item.text.Some? then item.text.value else []
    ensures item.wordsJson.Some? && item.wordsJson.value != [] && loads(item.wordsJson.value).None? ==> r.words == []
    ensures item.wordsJson.Some? && item.wordsJson.value != [] && loads(item.wordsJson.value).Some? ==>
      r.words == loads(item.wordsJson.value).value
    ensures item.wordsJson.None? || item.wordsJson.value == [] ==>
      r.words == if loads("[]").Some? then loads("[]").value else []
  {
    var raw := if item.wordsJson.Some? && item.wordsJson.value != [] then item.wordsJson.value else "[]";
    var words := match loads(raw) case Some(ws) => ws case None => [];
    Serialized(item.id, item.audioPath, item.text.GetOr([]), words, item.createdAt, item.updatedAt)
  }

  /** A word list stored by the service reads back unchanged, and so does the text. */
  lemma SerializeRoundTrip(item: Transcript, codec: JsonCodec, text: string, words: seq<Word>)
    requires RoundTrips(codec, words)
    requires item.text == Some(text) && item.wordsJson == Some(codec.dumps(words))
    ensures Serialize(item, codec.loads).words == words
    ensures Serialize(item, codec.loads).text == text
  {
  }

  /** The listing's preview: the first 80 characters of the text, or "" without one. */
  function ListPreview(text: Option<string>): (p: string)
    ensures |p| <= 80 && p <= text.GetOr([])
    ensures |p| == if |text.GetOr([])| < 80 then |text.GetOr([])| else 80
  {
    var t := text.GetOr([]);
    t[..if |t| < 80 then |t| else 80]
  }

  /** `(payload or {}).get("text", "")`. */
  function NewText(payload: Option<map<string, string>>): (text: string)
    ensures payload.Some? && "text" in payload.value ==> text == payload.value["text"]
    ensures payload.None? || "text" !in payload.value ==> text == []
  {
    if payload.Some? && "text" in payload.value then payload.value["text"] else []
  }

  /** Every id names a row, newest first (rows created at the same time in any order). */
  ghost predicate NewestFirst(rows: map<int, Transcript>, ids: seq<int>)
  {
    && (forall i :: 0 <= i < |ids| ==> ids[i] in rows)
    && (forall i, j :: 0 <= i < j < |ids| ==> rows[ids[i]].createdAt >= rows[ids[j]].createdAt)
  }

  lemma NoElementIsEmpty(ids: set<int>)
    requires forall id :: id !in ids
    ensures ids == {}
  {
    assert forall id :: id in ids <==> id in {};
  }

  /** A non-empty set of ids has an element to pick. */
  lemma NonEmptyHasElement(ids: set<int>)
    requires ids != {}
    ensures exists id :: id in ids
  {
    if forall id :: id !in ids {
      NoElementIsEmpty(ids);
      assert false;
    }
  }

  ghost predicate Distinct(ids: seq<int>)
  {
    forall i, j :: 0 <= i < j < |ids| ==> ids[i] != ids[j]
  }

  /**
   * One step of the listing query's `ORDER BY created_at DESC`: `id` goes
   * after every row at least as new, keeping the list newest first.
   */
  method InsertNewest(rows: map<int, Transcript>, ids: seq<int>, id: int) returns (result: seq<int>, p: nat)
    requires id in rows && NewestFirst(rows, ids)
    ensures p <= |ids| && result == ids[..p] + [id] + ids[p..]
    ensures forall k :: 0 <= k < p ==> rows[ids[k]].createdAt >= rows[id].createdAt
    ensures forall k :: p <= k < |ids| ==> rows[ids[k]].createdAt < rows[id].createdAt
    ensures NewestFirst(rows, result)
    ensures Distinct(ids) && id !in ids ==> Distinct(result)
    ensures forall x :: x in result <==> x == id || x in ids
  {
    p := 0;
    while p < |ids| && rows[ids[p]].createdAt >= rows[id].createdAt
      invariant p <= |ids|
      invariant forall k :: 0 <= k < p ==> rows[ids[k]].createdAt >= rows[id].createdAt
    {
      p := p + 1;
    }
    result := ids[..p] + [id] + ids[p..];
    assert forall k :: 0 <= k < |result| ==> result[k] == if k < p then ids[k] else if k == p then id else ids[k - 1];
    forall i, j | 0 <= i < j < |result|
      ensures rows[result[i]].createdAt >= rows[result[j]].createdAt
    {
      if j == p {
        assert result[i] == ids[i];
      } else if i == p {
        assert rows[ids[p]].createdAt < rows[id].createdAt;
        assert p <= j - 1 && result[j] == ids[j - 1];
      }
    }
  }

  // ---------------------------------------------------------------------
  // The transcript table
  // ---------------------------------------------------------------------

  class Store {
    var rows: map<int, Transcript>
    var users: set<int>

    ghost predicate Valid()
      reads this
    {
      forall id :: id in rows ==> id >= 1 && rows[id].id == id
    }

    constructor (users: set<int>)
      ensures Valid() && rows == map[] && this.users == users
    {
      rows := map[];
      this.users := users;
    }

    /** `get_transcript` for an authenticated caller. */
    function Get(user: int, tid: int, loads: string -> Option<seq<Word>>): (r: Result<Serialized, HttpError>)
      reads this
      ensures r.Ok? <==> tid >= 1 && tid in rows && rows[tid].userId == user
      ensures r.Ok? ==> r.value == Serialize(rows[tid], loads)
      ensures r.Err? ==> r.error == if tid < 1 then InvalidPath else NotFound
    {
      if tid < 1 then Err(InvalidPath)
      else if tid !in rows || rows[tid].userId != user then Err(NotFound)
      else Ok(Serialize(rows[tid], loads))
    }

    /** The whole get request: the caller is authenticated before the path is looked at. */
    function GetRequest(header: Option<string>, decode: string -> Claims, tid: int,
                        loads: string -> Option<seq<Word>>): (r: Result<Serialized, HttpError>)
      reads this
      ensures Authenticate(header, decode, users).Err? ==> r == Err(Authenticate(header, decode, users).error)
      ensures r.Ok? ==> tid in rows && Authenticate(header, decode, users) == Ok(rows[tid].userId)
      ensures Authenticate(header, decode, users).Ok? ==>
        r == Get(Authenticate(header, decode, users).value, tid, loads)
    {
      match Authenticate(header, decode, users)
      case Err(e) => Err(e)
      case Ok(user) => Get(user, tid, loads)
    }

    /** `transcribe` after the upload is saved and recognised: one new row owned by the caller. */
    method Transcribe(user: int, filename: Option<string>, hexId: string, segments: seq<Segment>,
                      newId: int, now: int, codec: JsonCodec)
      returns (id: int, text: string, words: seq<Word>, audio: string)
      requires Valid() && newId >= 1 && newId !in rows
      modifies this`rows
      ensures Valid()
      ensures id == newId && audio == StoredName(hexId, filename)
      ensures text == Trim(Python, Join(SpokenTexts(segments))) && words == Flatten(segments)
      ensures rows == old(rows)[newId := Transcript(newId, user, Some(audio), Some(text), Some(codec.dumps(words)), now, now)]
      ensures RoundTrips(codec, words) ==> Get(user, newId, codec.loads) == Ok(Serialized(newId, Some(audio), text, words, now, now))
    {
      audio := StoredName(hexId, filename);
      text, words := Collect(segments);
      var item := Transcript(newId, user, Some(audio), Some(text), Some(codec.dumps(words)), now, now);
      rows := rows[newId := item];
      id := newId;
      if RoundTrips(codec, words) {
        SerializeRoundTrip(item, codec, text, words);
      }
    }

    /**
     * The listing query: the caller's rows, each once, newest first. The
     * table is scanned in no particular order and each owned row is put in
     * place by creation time.
     */
    method OwnedNewestFirst(user: int) returns (ids: seq<int>)
      ensures NewestFirst(rows, ids) && Distinct(ids)
      ensures forall i :: 0 <= i < |ids| ==> rows[ids[i]].userId == user
      ensures forall id :: id in rows && rows[id].userId == user ==> id in ids
    {
      ids := [];
      var remaining := rows.Keys;
      while remaining != {}
        invariant remaining <= rows.Keys
        invariant NewestFirst(rows, ids) && Distinct(ids)
        invariant forall i :: 0 <= i < |ids| ==> rows[ids[i]].userId == user && ids[i] !in remaining
        invariant forall id :: id in rows && rows[id].userId == user ==> id in remaining || id in ids
        decreases remaining
      {
        NonEmptyHasElement(remaining);
        var id :| id in remaining;
        if rows[id].userId == user {
          var p;
          ids, p := InsertNewest(rows, ids, id);
        }
        remaining := remaining - {id};
      }
    }

    /** `list_transcripts`: the caller's rows, newest first, each with its preview. */
    method List(user: int) returns (out: seq<ListItem>)
      requires Valid()
      ensures forall i :: 0 <= i < |out| ==> out[i].id in rows && rows[out[i].id].userId == user
      ensures forall id :: id in rows && rows[id].userId == user ==> exists i :: 0 <= i < |out| && out[i].id == id
      ensures forall i, j :: 0 <= i < j < |out| ==> out[i].id != out[j].id && out[i].createdAt >= out[j].createdAt
      ensures forall i :: 0 <= i < |out| ==>
        && out[i].preview == ListPreview(rows[out[i].id].text) && out[i].audio == rows[out[i].id].audioPath
        && out[i].createdAt == rows[out[i].id].createdAt
    {
      var ids := OwnedNewestFirst(user);
      out := [];
      for k := 0 to |ids|
        invariant |out| == k
        invariant forall i :: 0 <= i < k ==>
          out[i] == ListItem(ids[i], ListPreview(rows[ids[i]].text), rows[ids[i]].audioPath, rows[ids[i]].createdAt)
      {
        var r := rows[ids[k]];
        out := out + [ListItem(r.id, ListPreview(r.text), r.audioPath, r.createdAt)];
      }
      forall id | id in rows && rows[id].userId == user
        ensures exists i :: 0 <= i < |out| && out[i].id == id
      {
        var i :| 0 <= i < |ids| && ids[i] == id;
        assert out[i].id == id;
      }
    }

    /**
     * `update_transcript`: only the caller's row changes, and only its text
     * and update time; the answer is what a later get returns.
     */
    method Update(user: int, tid: int, payload: Option<map<string, string>>, now: int,
                  loads: string -> Option<seq<Word>>) returns (r: Result<Serialized, HttpError>)
      requires Valid()
      modifies this`rows
      ensures Valid()
      ensures r.Ok? <==> tid >= 1 && tid in old(rows) && old(rows)[tid].userId == user
      ensures r.Ok? ==> rows == old(rows)[tid := old(rows)[tid].(text := Some(NewText(payload)), updatedAt := now)]
      ensures r.Ok? ==> r == Get(user, tid, loads)
      ensures r.Err? ==> rows == old(rows) && r.error == if tid < 1 then InvalidPath else NotFound
    {
      if tid < 1 {
        return Err(InvalidPath);
      }
      if tid !in rows || rows[tid].userId != user {
        return Err(NotFound);
      }
      var item := rows[tid];
      item := item.(text := Some(NewText(payload)));
      item := item.(updatedAt := now);
      rows := rows[tid := item];
      r := Ok(Serialize(item, loads));
    }

    /**
     * `delete_transcript`: removes exactly the caller's row with that id, and
     * nothing else.
     */
    method Delete(header: Option<string>, decode: string -> Claims, tid: int) returns (r: Result<(), HttpError>)
      requires Valid()
      modifies this`rows
      ensures Valid()
      ensures DeleteCaller(header, decode).Err? ==>
        r == Err(DeleteCaller(header, decode).error) && rows == old(rows)
      ensures DeleteCaller(header, decode).Ok? ==>
        var user := DeleteCaller(header, decode).value;
        if tid in old(rows) && old(rows)[tid].userId == user then
          r == Ok(()) && rows == old(rows) - {tid}
        else
          r == Err(TranscriptNotFound) && rows == old(rows)
    {
      var caller := DeleteCaller(header, decode);
      if caller.Err? {
        return Err(caller.error);
      }
      var user := caller.value;
      if tid !in rows || rows[tid].userId != user {
        return Err(TranscriptNotFound);
      }
      rows := rows - {tid};
      r := Ok(());
    }
  }
}
