# Voice transcriber: recorder and transcript service

A Dafny model of the two halves of a small voice-transcription app.

**The browser recorder** (`client/src/components/Recorder.jsx`) is modelled in `recorder.dfy` as the class `Recorder.Controller`:

- its fields are the component's state: recording and uploading flags, the elapsed time, the status line, the encoder, the chunk buffer and the microphone stream;
- its methods are the component's event handlers: start, timer tick, stop, data arrival, the encoder's stop event, and the upload settling;
- the `Valid()` invariant ties the flags to the encoder's state and the buffer to the fragments received.

Around the class sit the pure helpers it uses: the `MM:SS` clock display, the encoding choice, the upload's file name, the bytes of the uploaded blob and the status line built from the service's answer.

**The transcript service** (`app/main.py`) is modelled in `server.dfy`:

- bearer-token parsing and the two different authentication paths;
- the stored audio file's name, following Python's `os.path.splitext`;
- the loop that turns recognised segments into a text and a word list;
- serialisation of a stored row;
- the class `TranscriptApi.Store`, which holds the transcript table as a map from id to row and carries the list, get, update and delete endpoints.

`text.dfy` holds the string operations both halves share:

- decimal numerals;
- `padStart`;
- substring search;
- ECMAScript `trim` and Python `strip`, which disagree on what whitespace is.

`wrappers.dfy` holds `Option` and `Result`.

The environment is passed in as parameters:

- `Recorder.Acquisition` says how a start attempt ends: the microphone is granted, refused, or the encoder cannot be created or started;
- the browser's webm support is a boolean;
- the encoder's data fragments, the timer's readings and the service's response are event arguments.

On the server side:

- token decoding is a function from token to `Claims`;
- JSON is a `JsonCodec` pair of functions;
- the speech recogniser's output is a sequence of `Segment`s;
- the database's fresh id and the clock are inputs;
- the listing is computed from the table itself: the caller's rows, each put in place by creation time.

`TranscriptApi.RoundTrips` states what the service relies on from the JSON codec, for the one word list a transcription stores: its encoding is not empty and reads back as that list.

On the client's success line the ellipsis depends on the length of the trimmed preview, not on whether text was cut. It is appended exactly when the trimmed preview is 80 characters long. So a transcript of exactly 80 characters gets one although nothing was cut, and a long transcript whose 80th character is blank gets none. `Recorder.LongTextTruncated` and `Recorder.PreviewIsFull` state this rule.

## Model

| member | source | states |
|---|---|---|
| Text.DecimalString | client/src/components/Recorder.jsx:5-6 | the numeral `toString()` writes for a count is one or more decimal digits |
| Text.DecimalStringLeadingDigit | client/src/components/Recorder.jsx:5-6 | the numeral starts with '0' if and only if the count is zero, so it carries no padding of its own |
| Text.DecimalStringLength | client/src/components/Recorder.jsx:5-6 | the numeral is one digit exactly for counts below 10, and at most two exactly for counts below 100 |
| Text.DecimalRoundTrip | client/src/components/Recorder.jsx:5-6 | the numeral `toString()` writes for a count reads back as that count |
| Text.PadTwo | client/src/components/Recorder.jsx:5-6 | `padStart(2,"0")` keeps the string as its suffix, adds only '0's, and gives length max(len, 2) |
| Text.PadTwoValue | client/src/components/Recorder.jsx:5-6 | padding with zeros keeps a numeral's value |
| Text.TrimKeepsMiddle | app/main.py:131 | a trim keeps one contiguous piece of the input that neither starts nor ends with whitespace, and removes only whitespace on either side |
| Text.TrimClean | client/src/components/Recorder.jsx:63 | a string with no whitespace at either end is its own trim |
| Text.TrimBlank | client/src/components/Recorder.jsx:63 | a string made only of whitespace trims to "" |
| Text.TrimFullLength | client/src/components/Recorder.jsx:63 | a trim keeps the full length if and only if neither end is whitespace |
| Recorder.Fmt | client/src/components/Recorder.jsx:4-8 | the display is a minutes numeral and a seconds numeral joined by ':', at least 5 characters |
| Recorder.FmtMinutes | client/src/components/Recorder.jsx:5-7 | the part before ':' is digits denoting t/60 |
| Recorder.FmtSeconds | client/src/components/Recorder.jsx:6-7 | the part after ':' is two digits denoting t%60 |
| Recorder.FmtLength | client/src/components/Recorder.jsx:4-8 | the display is five characters long exactly while t is under 6000 seconds |
| Recorder.FmtFields | client/src/components/Recorder.jsx:4-8 | minutes denote t/60, seconds are two digits denoting t%60 (< 60), the display reads back as t, and it is 5 characters exactly when t < 6000 |
| Recorder.FileName | client/src/components/Recorder.jsx:58 | the upload is named "clip.webm" if and only if the MIME type mentions "webm", otherwise "clip.mp4" |
| Recorder.WebmMentionsWebm | client/src/components/Recorder.jsx:58 | "audio/webm" contains "webm" |
| Recorder.Mp4LacksWebm | client/src/components/Recorder.jsx:58 | "audio/mp4" does not contain "webm" |
| Recorder.Encoding | client/src/components/Recorder.jsx:31 | the encoding is "audio/webm" or "audio/mp4", and it mentions "webm" if and only if the browser supports webm |
| Recorder.EncodingNames | client/src/components/Recorder.jsx:31 | the file for the chosen encoding is clip.webm when webm is supported and clip.mp4 otherwise |
| Recorder.ConcatAppend | client/src/components/Recorder.jsx:36 | the blob of two fragment lists is the first blob followed by the second |
| Recorder.NonEmptyAppend | client/src/components/Recorder.jsx:34 | buffering is per event: the buffer after two runs of data events is the two buffers in order |
| Recorder.NonEmptyOnlyNonEmpty | client/src/components/Recorder.jsx:34 | every buffered fragment has non-zero size, and there are no more than arrived |
| Recorder.NonEmptyKeepsAll | client/src/components/Recorder.jsx:34 | when every fragment has data, the buffer is exactly the arrivals |
| Recorder.NonEmptyDropsEmpty | client/src/components/Recorder.jsx:34 | empty fragments leave the buffer empty |
| Recorder.PayloadIsWholeStream | client/src/components/Recorder.jsx:34-36 | the blob built from the buffer is every arrived fragment's bytes concatenated in arrival order |
| Recorder.Preview | client/src/components/Recorder.jsx:63 | the preview is at most 80 characters. It is the contiguous piece of the first 80 characters that is left once the whitespace at both ends is cut: everything cut is whitespace, and the preview neither starts nor ends with whitespace |
| Recorder.StatusFor | client/src/components/Recorder.jsx:64-70 | the status after an upload is never empty |
| Recorder.PreviewIsFull | client/src/components/Recorder.jsx:63-66 | the ellipsis appears if and only if the text has 80 characters and its 1st and 80th are not whitespace |
| Recorder.NoTextNoSpeech | client/src/components/Recorder.jsx:65-67 | an absent or empty text gives "No speech detected", whatever the word list |
| Recorder.FailureStatus | client/src/components/Recorder.jsx:70 | a failed upload shows the service's detail if non-empty, else "Upload failed" |
| Recorder.ShortTextShownWhole | client/src/components/Recorder.jsx:63-66 | a text under 80 characters with non-blank ends is shown whole, with no ellipsis and with the word count |
| Recorder.LongTextTruncated | client/src/components/Recorder.jsx:63-66 | a text of 80 or more characters with non-blank 1st and 80th characters shows its first 80 and an ellipsis |
| Recorder.BlankTextEmptyPreview | client/src/components/Recorder.jsx:63-67 | an all-blank non-empty text is still a transcript, with an empty preview |
| Recorder.SixWordsLine | client/src/components/Recorder.jsx:66 | a six-word count renders as " (6 words)" |
| Recorder.SixWordScenario | client/src/components/Recorder.jsx:64-66 | "hello world this is a test" with six words gives "Transcript: hello world this is a test (6 words)" |
| Recorder.Controller.Valid | client/src/components/Recorder.jsx:11-17 | the component's invariant: an active encoder means recording, the timer runs exactly while recording, an upload runs only after the encoder stopped, the microphone is held until the upload settles, and the buffer is the non-empty arrivals |
| Recorder.Controller.StartEnabled | client/src/components/Recorder.jsx:81 | the start button is enabled when neither recording nor uploading |
| Recorder.Controller.StopEnabled | client/src/components/Recorder.jsx:90 | the stop button is enabled while recording |
| Recorder.Controller.Indicator | client/src/components/Recorder.jsx:99 | the indicator reads the clock while recording, "Uploading…" while uploading, else "Idle" |
| Recorder.Controller.constructor | client/src/components/Recorder.jsx:11-17 | the component starts idle, with an empty status, no encoder and an empty buffer |
| Recorder.Controller.Start | client/src/components/Recorder.jsx:27-47 | when granted: recording, timer running, status cleared, fresh empty buffer, encoder active with the negotiated encoding. On any failure: the permission message and not recording. After the encoder could not be created or started, the granted stream is never stopped |
| Recorder.Controller.Tick | client/src/components/Recorder.jsx:21-24 | a tick sets the elapsed time to the seconds since the start, and the indicator then reads "Recording… " and that time as MM:SS |
| Recorder.Controller.Stop | client/src/components/Recorder.jsx:49-53 | an active encoder is asked to stop, any other is left alone; recording, timer and elapsed time are always cleared. When the stop button was disabled, the encoder and the elapsed time are unchanged |
| Recorder.Controller.OnData | client/src/components/Recorder.jsx:34 | a fragment is appended to the buffer exactly when it has data |
| Recorder.Controller.OnStopComplete | client/src/components/Recorder.jsx:35-37 | whether stop was pressed or the encoder stopped on its own, exactly one upload is issued, named after the encoding, whose content is every arrived fragment in order. Uploading is set with the "Uploading…" status, and the microphone is still held. The recording flag stays set exactly when the encoder stopped on its own; otherwise the indicator reads "Uploading…" |
| Recorder.Controller.OnUploadSettled | client/src/components/Recorder.jsx:61-73 | the status reflects the answer, uploading clears and the microphone is released. Start is enabled again exactly when the component is not still recording, and then the indicator reads "Idle" |
| Recorder.EmptyRecordingScenario | client/src/components/Recorder.jsx:27-73 | starting and stopping at once uploads an empty clip.webm and, answered with no text, ends idle with "No speech detected" |
| Recorder.DeniedScenario | client/src/components/Recorder.jsx:44-46 | a refused microphone gives the permission message, no upload, and an idle component |
| Recorder.TrackEndedScenario | client/src/components/Recorder.jsx:35-53 | an encoder that stops on its own still uploads once, but the component keeps showing a recording with start disabled until stop is pressed |
| TranscriptApi.FirstSpace | app/main.py:41 | the index of the first space, with no space before it |
| TranscriptApi.BearerToken | app/main.py:39-41 | a token exists if and only if the header starts with "Bearer ", and the header is "Bearer " followed by the token |
| TranscriptApi.Authenticate | app/main.py:35-52 | succeeds exactly when the bearer token decodes to a numeric "sub" naming an existing user. A missing header is "Not authenticated"; an undecodable token or a missing claim is "Invalid token"; a non-numeric claim is an uncaught error (500); an unknown user is "User not found" |
| TranscriptApi.DeleteCaller | app/main.py:228-235 | succeeds exactly when the bearer token decodes to a numeric "sub", with no user lookup. A missing header is "Missing token"; an undecodable token is "Invalid token"; a missing or non-numeric claim is an uncaught error (500) |
| TranscriptApi.DeleteCheckIsLaxer | app/main.py:228-235 | every caller the shared check admits is admitted by the delete check as the same user |
| TranscriptApi.LastIndex | app/main.py:104 | the last occurrence of a character, or -1 |
| TranscriptApi.Extension | app/main.py:104 | the extension is "" or a suffix of the name that starts with '.', contains no '/' and no other '.'. It is non-empty if and only if some '.' in the name follows a character other than '.' in the same last path component |
| TranscriptApi.StoredName | app/main.py:104-105 | the stored name is the hex id followed by the extension, or ".webm" when there is none; nothing after the id is a '/' |
| TranscriptApi.ClientNamesKeepExtension | app/main.py:104 | the recorder's clip.webm and clip.mp4 are stored with .webm and .mp4 |
| TranscriptApi.FallbackExtension | app/main.py:104 | a missing name, a name without a dot and a dot-file all get ".webm" |
| TranscriptApi.SegmentEntries | app/main.py:127-129 | one entry per word of a segment, in order, keeping word, start and end |
| TranscriptApi.FlattenLength | app/main.py:122-129 | the word list has one entry per reported word |
| TranscriptApi.SkippingEmptyTextsIsHarmless | app/main.py:125-131 | skipping empty segment texts changes nothing in the joined text |
| TranscriptApi.AppendEntries | app/main.py:127-129 | the inner loop appends the segment's entries, in order |
| TranscriptApi.Collect | app/main.py:122-131 | the text is the non-empty segment texts joined and stripped; the words are all segments' words in order, as many as reported |
| TranscriptApi.Serialize | app/main.py:151-163 | a missing text reads as ""; a stored word list reads as its decoding, or [] when unreadable; a missing or empty one reads as the decoding of "[]"; id, audio and timestamps are copied |
| TranscriptApi.RoundTripsSatisfiable | app/main.py:138 | every word list has a codec that carries it, so the round-trip assumption excludes no list |
| TranscriptApi.SerializeRoundTrip | app/main.py:138 | when the codec carries the stored word list, the words and text a transcription stores read back unchanged |
| TranscriptApi.ListPreview | app/main.py:178 | the preview is the prefix of the text (or of "") of length min(length, 80) |
| TranscriptApi.NewText | app/main.py:211 | the payload's "text" when present, otherwise "" |
| TranscriptApi.InsertNewest | app/main.py:170-174 | the id is inserted after every row at least as new and before every older row; the list stays newest first and free of repeats |
| TranscriptApi.Store.constructor | app/models.py:15-24 | the transcripts table, as created at start-up, holds no rows, alongside the existing users |
| TranscriptApi.Store.Get | app/main.py:187-196 | a row is returned if and only if the id is at least 1, exists and belongs to the caller. Otherwise 422 for ids below 1 and "Not found" for the rest |
| TranscriptApi.Store.GetRequest | app/main.py:35-52 | authentication failures come first with their own error; an authenticated caller gets exactly what the get endpoint gives that user; a returned row belongs to that user |
| TranscriptApi.Store.Valid | app/models.py:18 | the primary key: every row's id is at least 1 and is the key it is stored under |
| TranscriptApi.Store.Transcribe | app/main.py:97-145 | exactly one new row is added, owned by the caller, holding the stored name, the aggregated text and the encoded words. When the codec carries the stored word list, a later get returns what the response returned |
| TranscriptApi.Store.OwnedNewestFirst | app/main.py:170-174 | the selection and ordering of the listing query: every row of the caller, each once, only rows of the caller, newest first |
| TranscriptApi.Store.List | app/main.py:165-185 | computed from the table: exactly the caller's rows, each once, newest first, each with its preview, audio name and creation time |
| TranscriptApi.Store.Update | app/main.py:200-217 | only the caller's row changes, and only its text and update time; the response equals a later get, and other callers get "Not found" with nothing changed |
| TranscriptApi.Store.Delete | app/main.py:221-260 | exactly the caller's row with that id is removed and nothing else; otherwise the authentication error or "Transcript not found", with nothing changed |

## Left out

- Recorder.Controller.Start: requires that no earlier encoder is still stopping. In the component the start button is enabled again as soon as stop is pressed, before the encoder's stop event has run, so a new session can start in between. The component then shares one chunk buffer between the two sessions (the new start empties it before the old stop event reads it), and it can have two uploads in flight, where the first to settle clears the uploading flag for the other. The start button also stays enabled while the microphone request is pending, since neither flag is set yet, so a second click runs a second start. Both then create and start an encoder; only the second is kept, so the first is never stopped and its microphone never released, and the second timer replaces the first, which then never stops ticking. The model's start is one atomic step, and it has one encoder and one timer at a time; it excludes both of these overlaps.
- Recorder.Controller.Tick: the elapsed time is a whole, non-negative number of seconds. The component stores a fractional number of seconds; for a non-negative reading `fmt` floors both fields, so the display is the same. The reading comes from the wall clock, so it is negative when the system clock steps back after the start; `fmt` then shows something like "-1:-1" (its floor and remainder keep the sign). Such readings are not modelled, and neither is `Recorder.Fmt` on negative input.
- Timer intervals, `Date.now()` and the 200 ms period are not modelled; a tick carries its reading.
- Recorder.Preview: counts Unicode code points. JavaScript's `slice` and `length` count UTF-16 code units, which differ for characters outside the Basic Multilingual Plane.
- React state batching and re-rendering are not modelled; each handler's state updates take effect in order.
- The unmount cleanup that clears the timer is not modelled.
- The status line's colour classes and the button styling are presentation only.
- Recorder.StatusFor: the service's `detail` is taken to be a string. A validation error whose detail is a list is not modelled.
- TranscriptApi.NewText: the payload maps keys to strings. A non-string or null "text" is not modelled; the database would reject a null on commit.
- Token signing and verification, JSON encoding and parsing, `int()` parsing of the "sub" claim and SQL execution are represented by function parameters and by the `RoundTrips` predicate.
- TranscriptApi.Store.OwnedNewestFirst: the table is scanned in an arbitrary order, and rows created at the same instant come out in unspecified order, as in the database.
- TranscriptApi.Store.Get: the 422 answer for an id below 1 is the single error `InvalidPath`, whose detail is the status phrase "Unprocessable Entity". The framework's real detail is a list of validation errors, which is not modelled.
- TranscriptApi.Extension: follows the POSIX `os.path.splitext` only; the Windows variant, which also splits on `\` and drive letters, is not modelled.
- Saving the upload to disk, the recogniser itself, and removing the audio file on delete are file and model I/O. The removal uses a path relative to the working directory, unlike the save path; that difference is not modelled.
- TranscriptApi.Store.Transcribe: both timestamps are one clock reading. The database default reads the clock twice.
- Timestamps are abstract integers; their ISO-8601 rendering is left out.
- Sign-up, log-in, the health route, CORS and the other client pages and the API wrapper are outside the modelled core.
