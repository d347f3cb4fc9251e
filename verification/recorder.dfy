/**
 * The browser recorder component: a small controller that starts and stops
 * microphone capture, buffers the encoder's data fragments, uploads them as
 * one file once the encoder has finished, and turns the transcription
 * service's answer into a status line.
 *
 * The browser is an input here: whether the microphone is granted, whether
 * the webm container is supported, the data fragments the encoder emits,
 * the timer's readings and the service's response are all parameters of
 * the controller's event methods.
 */
module Recorder {
  import opened Wrappers
  import opened Text

  // ---------------------------------------------------------------------
  // Elapsed-time display
  // ---------------------------------------------------------------------

  /**
   * `fmt(t)`: minutes and seconds, each left-padded with "0" to at least two
   * digits, joined by ':'. `t` is a whole number of seconds; for a
   * non-negative time with a fractional part, floor(t/60) and floor(t % 60)
   * only depend on floor(t), so this loses nothing.
   */
  function Fmt(t: nat): (r: string)
    ensures |r| >= 5 && r[|r| - 3] == ':'
    ensures IsDigits(r[..|r| - 3]) && IsDigits(r[|r| - 2..])
  {
    var m := PadTwo(DecimalString(t / 60));
    var s := PadTwo(DecimalString(t % 60));
    DecimalStringLength(t % 60);
    assert |s| == 2 && IsDigits(s) && IsDigits(m);
    var r := m + ":" + s;
    assert r[..|r| - 3] == m && r[|r| - 2..] == s;
    r
  }

  /** Reads an `MM:SS` string back into seconds. */
  function ClockSeconds(r: string): nat
    requires |r| >= 3 && IsDigits(r[..|r| - 3]) && IsDigits(r[|r| - 2..])
  {
    60 * DecimalValue(r[..|r| - 3]) + DecimalValue(r[|r| - 2..])
  }

  /** The minutes field of the display denotes t / 60. */
  lemma {:induction false} FmtMinutes(t: nat)
    ensures var r := Fmt(t);
      IsDigits(r[..|r| - 3]) && DecimalValue(r[..|r| - 3]) == t / 60
  {
    var m := DecimalString(t / 60);
    var r := Fmt(t);
    assert r[..|r| - 3] == PadTwo(m);
    PadTwoValue(m);
    DecimalRoundTrip(t / 60);
  }

  /** The display is five characters long exactly while under 100 minutes. */
  lemma {:induction false} FmtLength(t: nat)
    ensures |Fmt(t)| == 5 <==> t < 6000
  {
    var m := t / 60;
    assert |Fmt(t)| == |PadTwo(DecimalString(m))| + 3;
    DecimalStringLength(m);
    assert m < 100 <==> t < 6000;
  }

  /** The seconds field of the display is two digits denoting t % 60. */
  lemma {:induction false} FmtSeconds(t: nat)
    ensures var r := Fmt(t);
      && IsDigits(r[|r| - 2..]) && DecimalValue(r[|r| - 2..]) == t % 60
  {
    var s := DecimalString(t % 60);
    var r := Fmt(t);
    assert r[|r| - 2..] == PadTwo(s);
    PadTwoValue(s);
    DecimalRoundTrip(t % 60);
  }

  /**
   * The minutes field denotes t / 60, the seconds field is exactly two
   * digits denoting t % 60 (so 00..59), the display reads back as `t`, and
   * it is exactly five characters long while under 100 minutes.
   */
  lemma {:induction false} FmtFields(t: nat)
    ensures var r := Fmt(t);
      && IsDigits(r[..|r| - 3]) && IsDigits(r[|r| - 2..])
      && DecimalValue(r[..|r| - 3]) == t / 60
      && DecimalValue(r[|r| - 2..]) == t % 60 < 60
      && ClockSeconds(r) == t
      && (|r| == 5 <==> t < 6000)
  {
    FmtMinutes(t);
    FmtSeconds(t);
    FmtLength(t);
    var r := Fmt(t);
    assert ClockSeconds(r) == 60 * (t / 60) + t % 60;
  }

  // ---------------------------------------------------------------------
  // Encoding negotiation and the uploaded file's name
  // ---------------------------------------------------------------------

  const Webm := "audio/webm"
  const Mp4 := "audio/mp4"

  /** The container asked of the encoder: webm when the browser supports it, else mp4. */
  function Encoding(webmSupported: bool): (mimeType: string)
    ensures mimeType == Webm || mimeType == Mp4
    ensures Contains(mimeType, "webm") <==> webmSupported
  {
    if webmSupported then
      WebmMentionsWebm();
      Webm
    else
      Mp4LacksWebm();
      Mp4
  }

  /** The name given to the uploaded file: its extension follows the encoding. */
  function FileName(mimeType: string): (name: string)
    ensures name == "clip.webm" || name == "clip.mp4"
    ensures name == "clip.webm" <==> Contains(mimeType, "webm")
  {
    "clip." + (if Contains(mimeType, "webm") then "webm" else "mp4")
  }

  lemma WebmMentionsWebm()
    ensures Contains(Webm, "webm")
  {
    assert OccursAt(Webm, "webm", 6);
  }

  lemma Mp4LacksWebm()
    ensures !Contains(Mp4, "webm")
  {
    forall i: nat ensures !OccursAt(Mp4, "webm", i) {
      if i + 4 <= |Mp4| {
        assert Mp4[i..i + 4][0] == Mp4[i] != 'w';
      }
    }
  }

  /** Each encoding gets its own file name. */
  lemma EncodingNames(webmSupported: bool)
    ensures FileName(Encoding(webmSupported)) == if webmSupported then "clip.webm" else "clip.mp4"
  {
  }

  // ---------------------------------------------------------------------
  // The fragment buffer
  // ---------------------------------------------------------------------

  newtype Byte = x: int | 0 <= x < 256

  /** One data fragment emitted by the encoder. */
  type Fragment = seq<Byte>

  /** What `ondataavailable` adds to the buffer for one fragment: the fragment if it is non-empty. */
  function Keep(fragment: Fragment): seq<Fragment>
  {
    if |fragment| > 0 then [fragment] else []
  }

  /** The buffer after a run of data events: the non-empty fragments in arrival order. */
  function NonEmpty(arrivals: seq<Fragment>): seq<Fragment>
  {
    if arrivals == [] then []
    else NonEmpty(arrivals[..|arrivals| - 1]) + Keep(arrivals[|arrivals| - 1])
  }

  /** The bytes of a Blob built from `fragments`: their concatenation in order. */
  function Concat(fragments: seq<Fragment>): seq<Byte>
  {
    if fragments == [] then []
    else Concat(fragments[..|fragments| - 1]) + fragments[|fragments| - 1]
  }

  lemma {:induction false} ConcatAppend(a: seq<Fragment>, b: seq<Fragment>)
    ensures Concat(a + b) == Concat(a) + Concat(b)
    decreases |b|
  {
    if b == [] {
      assert a + b == a;
    } else {
      assert (a + b)[..|a + b| - 1] == a + b[..|b| - 1];
      ConcatAppend(a, b[..|b| - 1]);
    }
  }

  /** Filtering distributes over arrival history: events are handled one at a time, in order. */
  lemma {:induction false} NonEmptyAppend(a: seq<Fragment>, b: seq<Fragment>)
    ensures NonEmpty(a + b) == NonEmpty(a) + NonEmpty(b)
    decreases |b|
  {
    if b == [] {
      assert a + b == a;
    } else {
      assert (a + b)[..|a + b| - 1] == a + b[..|b| - 1];
      NonEmptyAppend(a, b[..|b| - 1]);
    }
  }

  /** Every buffered fragment has non-zero size, and there are no more of them than arrivals. */
  lemma {:induction false} NonEmptyOnlyNonEmpty(arrivals: seq<Fragment>)
    ensures |NonEmpty(arrivals)| <= |arrivals|
    ensures forall i :: 0 <= i < |NonEmpty(arrivals)| ==> |NonEmpty(arrivals)[i]| > 0
    decreases |arrivals|
  {
    if arrivals != [] {
      NonEmptyOnlyNonEmpty(arrivals[..|arrivals| - 1]);
    }
  }

  /** A fragment of non-zero size is kept; so a history of such fragments is kept whole. */
  lemma {:induction false} NonEmptyKeepsAll(arrivals: seq<Fragment>)
    requires forall i :: 0 <= i < |arrivals| ==> |arrivals[i]| > 0
    ensures NonEmpty(arrivals) == arrivals
    decreases |arrivals|
  {
    if arrivals != [] {
      NonEmptyKeepsAll(arrivals[..|arrivals| - 1]);
    }
  }

  /** A history of empty fragments leaves the buffer empty. */
  lemma {:induction false} NonEmptyDropsEmpty(arrivals: seq<Fragment>)
    requires forall i :: 0 <= i < |arrivals| ==> |arrivals[i]| == 0
    ensures NonEmpty(arrivals) == []
    decreases |arrivals|
  {
    if arrivals != [] {
      NonEmptyDropsEmpty(arrivals[..|arrivals| - 1]);
    }
  }

  /**
   * Dropping empty fragments loses no bytes: the payload built from the
   * buffer is the whole stream, every fragment concatenated in arrival order.
   */
  lemma {:induction false} PayloadIsWholeStream(arrivals: seq<Fragment>)
    ensures Concat(NonEmpty(arrivals)) == Concat(arrivals)
    decreases |arrivals|
  {
    if arrivals != [] {
      var init := arrivals[..|arrivals| - 1];
      var last := arrivals[|arrivals| - 1];
      PayloadIsWholeStream(init);
      ConcatAppend(NonEmpty(init), Keep(last));
      if |last| == 0 {
        assert Concat(arrivals) == Concat(init) + last;
        assert last == [];
      } else {
        assert Concat([last]) == Concat([]) + last;
      }
    }
  }

  // ---------------------------------------------------------------------
  // The status line derived from the service's answer
  // ---------------------------------------------------------------------

  const NoSpeech := "No speech detected"
  const UploadFailed := "Upload failed"
  const UploadingNotice := "Uploading…"
  const MicDenied := "Mic permission denied or not available."
  const PreviewLength := 80

  /** The answer to the upload request. */
  datatype Response =
    | Transcribed(text: Option<string>, wordCount: Option<nat>)  // `data.text`, `data.words?.length`
    | Rejected(detail: Option<string>)                            // `e.response.data.detail`

  /**
   * The first 80 characters of the transcript, trimmed: the piece of them
   * left once the whitespace at both ends is cut away.
   */
  function Preview(text: string): (p: string)
    ensures |p| <= PreviewLength
    ensures var head := text[..if |text| < PreviewLength then |text| else PreviewLength];
      var k := LeadingSpaces(EcmaScript, head);
      && k + |p| <= |head| && p == head[k..k + |p|]
      && (forall i :: 0 <= i < k ==> IsSpace(EcmaScript, head[i]))
      && (forall i :: k + |p| <= i < |head| ==> IsSpace(EcmaScript, head[i]))
      && (p != [] ==> !IsSpace(EcmaScript, p[0]) && !IsSpace(EcmaScript, p[|p| - 1]))
  {
    var head := text[..if |text| < PreviewLength then |text| else PreviewLength];
    TrimKeepsMiddle(EcmaScript, head);
    Trim(EcmaScript, head)
  }

  /** The success line: the preview, an ellipsis when asked for, and the word count. */
  function TranscriptLine(preview: string, ellipsis: bool, words: nat): string
  {
    "Transcript: " + preview + (if ellipsis then "…" else "") + " (" + DecimalString(words) + " words)"
  }

  /** The status line set once the upload settles. */
  function StatusFor(response: Response): (status: string)
    ensures status != []
  {
    match response
    case Transcribed(text, wordCount) =>
      if text.Some? && text.value != [] then
        var p := Preview(text.value);
        TranscriptLine(p, |p| == PreviewLength, wordCount.GetOr(0))
      else NoSpeech
    case Rejected(detail) =>
      if detail.Some? && detail.value != [] then detail.value else UploadFailed
  }

  /** The ellipsis is shown exactly when the first 80 characters exist and neither end of them is blank. */
  lemma PreviewIsFull(text: string)
    ensures |Preview(text)| == PreviewLength <==>
      |text| >= PreviewLength && !IsSpace(EcmaScript, text[0]) && !IsSpace(EcmaScript, text[PreviewLength - 1])
  {
    var head := text[..if |text| < PreviewLength then |text| else PreviewLength];
    TrimFullLength(EcmaScript, head);
  }

  /** An empty or absent text is "no speech", whatever the word list holds. */
  lemma NoTextNoSpeech(text: Option<string>, wordCount: Option<nat>)
    requires text.None? || text.value == []
    ensures StatusFor(Transcribed(text, wordCount)) == NoSpeech
  {
  }

  /** A failure shows the service's detail when it has one, else the generic message. */
  lemma FailureStatus(detail: Option<string>)
    ensures detail.Some? && detail.value != [] ==> StatusFor(Rejected(detail)) == detail.value
    ensures detail.None? || detail.value == [] ==> StatusFor(Rejected(detail)) == UploadFailed
  {
  }

  /** A short transcript without blank ends is shown whole, without an ellipsis. */
  lemma ShortTextShownWhole(text: string, wordCount: Option<nat>)
    requires 0 < |text| < PreviewLength
    requires !IsSpace(EcmaScript, text[0]) && !IsSpace(EcmaScript, text[|text| - 1])
    ensures StatusFor(Transcribed(Some(text), wordCount)) == TranscriptLine(text, false, wordCount.GetOr(0))
  {
    assert text[..|text|] == text;
    TrimClean(EcmaScript, text);
  }

  /**
   * A transcript of 80 characters or more whose 1st and 80th characters are
   * not blank shows those 80 characters and an ellipsis; this holds for a
   * transcript of exactly 80 characters too, although nothing was cut.
   */
  lemma LongTextTruncated(text: string, wordCount: Option<nat>)
    requires |text| >= PreviewLength
    requires !IsSpace(EcmaScript, text[0]) && !IsSpace(EcmaScript, text[PreviewLength - 1])
    ensures StatusFor(Transcribed(Some(text), wordCount))
      == TranscriptLine(text[..PreviewLength], true, wordCount.GetOr(0))
  {
    var head := text[..PreviewLength];
    assert Preview(text) == Trim(EcmaScript, head);
    assert head[0] == text[0] && head[|head| - 1] == text[PreviewLength - 1];
    TrimClean(EcmaScript, head);
    assert |Preview(text)| == PreviewLength;
  }

  /** A transcript made only of blanks is still a transcript, with an empty preview. */
  lemma BlankTextEmptyPreview(text: string, wordCount: Option<nat>)
    requires text != [] && forall i :: 0 <= i < |text| ==> IsSpace(EcmaScript, text[i])
    ensures StatusFor(Transcribed(Some(text), wordCount)) == TranscriptLine([], false, wordCount.GetOr(0))
  {
    var head := text[..if |text| < PreviewLength then |text| else PreviewLength];
    TrimBlank(EcmaScript, head);
  }

  /** The service returns a six-word sentence: it is shown whole with its word count. */
  lemma SixWordScenario(text: string)
    requires text == "hello world this is a test"
    ensures StatusFor(Transcribed(Some(text), Some(6))) == "Transcript: " + text + " (6 words)"
  {
    assert |text| == 26 && text[0] == 'h' && text[25] == 't';
    ShortTextShownWhole(text, Some(6));
    SixWordsLine(text);
  }

  lemma SixWordsLine(text: string)
    ensures TranscriptLine(text, false, 6) == "Transcript: " + text + " (6 words)"
  {
    assert DecimalString(6) == "6" by {
      assert DigitChar(6) == '6';
    }
    assert " (" + "6" + " words)" == " (6 words)";
  }

  // ---------------------------------------------------------------------
  // The controller
  // ---------------------------------------------------------------------

  /** How a start attempt ends; each failure is caught by the same handler. */
  datatype Acquisition =
    | Granted          // the microphone is granted and the encoder starts
    | Denied           // the microphone request is refused or no device exists
    | RecorderRefused  // the stream is granted but the encoder cannot be created
    | StartRefused     // the encoder is created but refuses to start

  /** The state of the encoder object the controller last created. */
  datatype RecorderState = NoRecorder | Active | Stopping | Inactive

  /** The file sent to the transcription service. */
  datatype UploadFile = UploadFile(name: string, mimeType: string, content: seq<Byte>)

  class Controller {
    var recording: bool
    var uploading: bool
    var elapsed: nat        // whole seconds shown while recording
    var status: string
    var timerRunning: bool
    var recorder: RecorderState
    var mimeType: string    // the encoding the current recorder's stop handler uses
    var chunks: seq<Fragment>
    var streamHeld: bool    // the current session's microphone tracks are not yet stopped
    var strandedStreams: nat  // streams granted to failed starts, which nothing ever stops
    var uploads: seq<UploadFile>  // every upload issued, in order
    ghost var arrivals: seq<Fragment>  // every data fragment since the buffer was last reset

    ghost predicate Valid()
      reads this
    {
      && (recorder == Active ==> recording)
      && (recording ==> recorder == Active || recorder == Inactive)
      && timerRunning == recording
      && (!timerRunning ==> elapsed == 0)
      && (uploading ==> recorder == Inactive)
      && (streamHeld <==> recorder == Active || recorder == Stopping || uploading)
      && (streamHeld ==> mimeType == Webm || mimeType == Mp4)
      && chunks == NonEmpty(arrivals)
    }

    /** The start button is enabled. */
    predicate StartEnabled()
      reads this
    {
      !recording && !uploading
    }

    /** The stop button is enabled. */
    predicate StopEnabled()
      reads this
    {
      recording
    }

    /** The indicator next to the buttons. */
    function Indicator(): string
      reads this
    {
      if recording then "Recording… " + Fmt(elapsed)
      else if uploading then UploadingNotice
      else "Idle"
    }

    constructor ()
      ensures Valid()
      ensures !recording && !uploading && elapsed == 0 && status == [] && !timerRunning
      ensures recorder == NoRecorder && chunks == [] && arrivals == []
      ensures !streamHeld && strandedStreams == 0 && uploads == []
    {
      recording, uploading, elapsed, status, timerRunning := false, false, 0, [], false;
      recorder, mimeType, chunks, arrivals := NoRecorder, [], [], [];
      streamHeld, strandedStreams, uploads := false, 0, [];
    }

    /**
     * `startRecording`, reachable only through the enabled start button. It
     * also requires that no earlier recorder is still stopping: see README.
     */
    method Start(acquisition: Acquisition, webmSupported: bool)
      requires Valid() && StartEnabled() && recorder != Stopping
      modifies this`status, this`strandedStreams, this`chunks, this`arrivals, this`recorder, this`mimeType
      modifies this`streamHeld, this`recording, this`timerRunning
      ensures Valid()
      ensures !uploading
      ensures acquisition == Granted ==>
        && recording && timerRunning && elapsed == 0 && status == []
        && recorder == Active && mimeType == Encoding(webmSupported)
        && chunks == [] && arrivals == []
        && streamHeld && strandedStreams == old(strandedStreams)
      ensures acquisition != Granted ==>
        && !recording && !timerRunning && elapsed == 0 && status == MicDenied && !streamHeld
      ensures acquisition == Denied || acquisition == RecorderRefused ==>
        recorder == old(recorder) && mimeType == old(mimeType)
        && chunks == old(chunks) && arrivals == old(arrivals)
      ensures acquisition == StartRefused ==>
        recorder == Inactive && mimeType == Encoding(webmSupported) && chunks == [] && arrivals == []
      ensures strandedStreams == old(strandedStreams)
        + (if acquisition == RecorderRefused || acquisition == StartRefused then 1 else 0)
    {
      status := [];
      if acquisition == Denied {
        status := MicDenied;
      } else if acquisition == RecorderRefused {
        strandedStreams := strandedStreams + 1;
        status := MicDenied;
      } else {
        var mime := Encoding(webmSupported);
        chunks, arrivals := [], [];
        assert NonEmpty(arrivals) == [];
        recorder, mimeType := Inactive, mime;
        if acquisition == StartRefused {
          strandedStreams := strandedStreams + 1;
          status := MicDenied;
        } else {
          recorder := Active;
          streamHeld := true;
          recording := true;
          timerRunning := true;
        }
      }
    }

    /** A timer tick: the elapsed time, in whole seconds, since the start. */
    method Tick(seconds: nat)
      requires Valid() && timerRunning
      modifies this`elapsed
      ensures Valid() && elapsed == seconds
      ensures Indicator() == "Recording… " + Fmt(seconds)
    {
      elapsed := seconds;
    }

    /**
     * `stopRecording`: asks an active recorder to stop (any other recorder is
     * left alone, as the ignored error of a stray stop leaves it), and always
     * clears the recording flag and the timer.
     */
    method Stop()
      requires Valid()
      modifies this`recorder, this`recording, this`timerRunning, this`elapsed
      ensures Valid()
      ensures !recording && !timerRunning && elapsed == 0
      ensures recorder == if old(recorder) == Active then Stopping else old(recorder)
      ensures !old(StopEnabled()) ==> recorder == old(recorder) && elapsed == old(elapsed)
    {
      if recorder == Active {
        recorder := Stopping;
      }
      recording := false;
      timerRunning := false;
      elapsed := 0;
    }

    /** `ondataavailable`: a fragment arrives, before the stop completes. */
    method OnData(fragment: Fragment)
      requires Valid() && (recorder == Active || recorder == Stopping)
      modifies this`chunks, this`arrivals
      ensures Valid()
      ensures arrivals == old(arrivals) + [fragment]
      ensures chunks == old(chunks) + Keep(fragment)
    {
      if |fragment| > 0 {
        chunks := chunks + [fragment];
      }
      arrivals := arrivals + [fragment];
      assert arrivals[..|arrivals| - 1] == old(arrivals);
    }

    /**
     * `onstop`, up to the upload request: the whole buffer becomes one file,
     * named after the encoding, and exactly one upload is issued; the
     * microphone stays held until the upload settles. The encoder stops
     * either because `Stop` asked it to, or on its own (the recorded tracks
     * ended, or an encoding error) while still recording: then the recording
     * flag and the timer are left running, since only `Stop` clears them.
     */
    method OnStopComplete()
      requires Valid() && (recorder == Active || recorder == Stopping)
      modifies this`recorder, this`uploading, this`status, this`uploads
      ensures Valid()
      ensures recorder == Inactive && uploading && status == UploadingNotice && streamHeld
      ensures recording <==> old(recorder) == Active
      ensures !recording ==> Indicator() == UploadingNotice
      ensures uploads == old(uploads) + [UploadFile(FileName(mimeType), mimeType, Concat(chunks))]
      ensures uploads[|uploads| - 1].content == Concat(arrivals)
    {
      var blob := Concat(chunks);
      PayloadIsWholeStream(arrivals);
      assert blob == Concat(arrivals);
      recorder := Inactive;
      uploading := true;
      status := UploadingNotice;
      uploads := uploads + [UploadFile(FileName(mimeType), mimeType, blob)];
    }

    /**
     * The upload settles (either way): the status reflects the answer, the
     * upload flag clears, and only then are the microphone tracks stopped.
     */
    method OnUploadSettled(response: Response)
      requires Valid() && uploading
      modifies this`status, this`uploading, this`streamHeld
      ensures Valid()
      ensures status == StatusFor(response) && !uploading && !streamHeld
      ensures StartEnabled() <==> !recording
      ensures !recording ==> Indicator() == "Idle"
    {
      status := StatusFor(response);
      uploading := false;
      streamHeld := false;
    }
  }

  /** Stopping at once still uploads one empty webm file, and settles to a defined status. */
  method EmptyRecordingScenario() returns (upload: UploadFile, status: string, idle: bool)
    ensures upload == UploadFile("clip.webm", Webm, [])
    ensures status == NoSpeech && idle
  {
    var c := new Controller();
    c.Start(Granted, true);
    c.Stop();
    c.OnStopComplete();
    EncodingNames(true);
    upload := c.uploads[0];
    c.OnUploadSettled(Transcribed(Some(""), None));
    status, idle := c.status, c.StartEnabled() && !c.streamHeld;
  }

  /** A refused microphone leaves the controller idle, with the fixed message and no upload. */
  method DeniedScenario() returns (status: string, uploadCount: nat, idle: bool)
    ensures status == MicDenied && uploadCount == 0 && idle
  {
    var c := new Controller();
    c.Start(Denied, true);
    status, uploadCount, idle := c.status, |c.uploads|, c.StartEnabled() && !c.recording;
  }

  /**
   * The encoder stops on its own while recording: the clip is uploaded, but
   * the component still shows a recording, and the start button stays
   * disabled until stop is pressed.
   */
  method TrackEndedScenario() returns (uploads: nat, recordingAfterUpload: bool,
                                       startAfterUpload: bool, startAfterStop: bool)
    ensures uploads == 1 && recordingAfterUpload && !startAfterUpload && startAfterStop
  {
    var c := new Controller();
    c.Start(Granted, false);
    c.OnStopComplete();
    c.OnUploadSettled(Rejected(None));
    uploads, recordingAfterUpload, startAfterUpload := |c.uploads|, c.recording, c.StartEnabled();
    c.Stop();
    startAfterStop := c.StartEnabled();
  }
}
