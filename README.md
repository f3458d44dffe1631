# YouTube Transcript and Frame Extractor — a Dafny model of its core

The application takes YouTube video URLs, either typed one per line or taken
from a playlist. For each URL it extracts the video identifier and fetches the
transcript. A fetched transcript is saved as `./transcripts/transcript_{count}.json`,
where `count` numbers only the successful fetches. The saved file is read back
as text lines (`Text: …, Start: …, End: …`), with `[Music]` captions skipped.
All the lines go, with the user's question, to a language model. The model's
reply is post-processed into segments sorted by start time.

This project models that core:

- `option.dfy` (`Optional`) and `json.dfy` (`JsonValue`) hold the value types.
  A decoded JSON document is a `Json` value.
- `text.dfy` (`Text`) holds the Python string operations the program relies on.
  These are `in`, `split`, `replace(c, '')`, `endswith`, and the decimal
  numeral of an integer in an f-string. `IndexOf` (a leftmost search) and
  `Join` are helpers: the first defines `in` and `split`, the second states
  the `split` round trip.
- `video_id.dfy` (`VideoId`) covers the identifier expression
  `url.split('v=')[-1].split('&')[0]`.
- `transcript.dfy` (`Transcript`) covers `change_transcript_to_txt` (caption
  filtering and rendering, with its error outcomes) and `load_transcripts`
  (the `.json` files of the folder, each under its path header).
- `batch.dfy` (`Batch`) covers `fetch_transcript` and the counter loop of the
  button handler. That loop numbers the saved files and accumulates
  `final_transcripts`. The file also has the one-URL-per-line input.
- `extract.dfy` (`Extract`) covers `relevant_text_extractor`:
  - the API-key check;
  - the model call;
  - the `raw[8:-4]` cut;
  - the all-or-nothing conversion of `start`/`end` (every `s` deleted, then
    `float`);
  - the stable sort by `start`.

The outside world enters as parameters:

- `provider: string -> Fetch` is the transcript service, keyed by video
  identifier.
- `model: (string, string) -> Option<string>` is the language model given the
  question and the transcripts; `None` means the call raised.
- `decode: string -> Option<Json>` is `json.loads`.
- `parse: string -> Option<real>` is `float` on a string.
- `show: real -> string` is `round(x, 2)` printed by an f-string.

A file that is read back is the input `FileContent`. A directory listing is a
sequence of `DirEntry`.

Three behaviours of the code worth knowing:

- The identifier is taken after the *last* `v=` of the URL.
- Every `s` is deleted from a time string, not just a trailing unit suffix.
- A missing file or bad JSON makes `change_transcript_to_txt` return `None`:
  those handlers only report the error and fall through. In
  `load_transcripts`, adding that `None` to a string raises (`Loaded.Raised`).

## Model

| member | source | states |
|---|---|---|
| Text.IndexOf | app.py:85 | defines the leftmost search behind `in` and `split`; any index found is an occurrence of the pattern |
| Text.Contains | app.py:85 | defines Python's `pat in s` on strings as "the leftmost search finds something" |
| Text.IndexOfLeftmost | app.py:85 | `in`/`split` rely on the leftmost occurrence: any occurrence of the pattern at `j` means one is found at `j` or before |
| Text.ContainsChar | app.py:44 | a one-character pattern is contained exactly when the character occurs in the string |
| Text.Split | app.py:44 | `split` yields at least one piece |
| Text.SplitSingle | app.py:44 | `split` yields exactly one piece when the separator does not occur, and that piece is the whole string |
| Text.SplitAtFirst | app.py:44 | helper for the proofs: `split` cuts at the first separator and splits the remainder |
| Text.LastAfterFirst | app.py:44 | `split(sep)[-1]` lies after the first separator |
| Text.JoinSplit | app.py:251 | joining the pieces of `split(sep)` with `sep` gives the original string back |
| Text.SplitPiecesFree | app.py:251 | no piece of a split contains the separator |
| Text.FirstPiece | app.py:44 | `split(sep)[0]` is a separator-free prefix followed by the end of the string or by `sep` |
| Text.DeleteAll | app.py:176 | defines `s.replace(c, '')` for one character; the result is never longer |
| Text.DeleteAllRemoves | app.py:176 | `replace('s', '')` removes every `s` and keeps the count of every other character |
| Text.DeleteAllAbsent | app.py:176 | a string without the character is unchanged by the deletion |
| Text.DeleteAllAppend | app.py:176 | deletion distributes over concatenation |
| Text.EndsWith | app.py:108 | defines `s.endswith(suffix)`: the string's last characters are the suffix |
| Text.Decimal | app.py:58 | the numeral is non-empty and has one digit exactly for numbers below ten |
| Text.DecimalInjective | app.py:58 | distinct counts give distinct numerals |
| Text.CountCharAppend | app.py:88 | character counts add up over a concatenation |
| VideoId.VideoIdOf | app.py:44 | the identifier never contains `&` |
| VideoId.IdCutsLastPiece | app.py:44 | the identifier is the last `v=`-piece of the URL cut just before its first `&` |
| VideoId.LastPieceFollowsMarker | app.py:44 | when the URL holds `v=`, the last piece is what follows a `v=` at the end of the URL and holds no `v=` itself |
| VideoId.LastPieceIsTail | app.py:44 | for a URL `head + tail` with `head` ending in `v=` and no `v=` in `tail`, `split('v=')[-1]` is `tail` |
| VideoId.AfterFinalMarker | app.py:44 | the identifier is the text after the final `v=`, cut at its first `&` |
| VideoId.WithoutMarker | app.py:44 | a URL without `v=` gives itself, cut at its first `&` |
| VideoId.IdHasNoMarker | app.py:44 | the identifier never contains `v=` |
| VideoId.WithoutLetterV | app.py:44 | helper for the example: a string without the letter `v` contains no `v=` |
| VideoId.WatchUrlExample | app.py:44 | `https://youtube.com/watch?v=ABC123&t=5` gives `ABC123` |
| Transcript.Classify | app.py:84-88 | defines what the loop does with one element: skip a `text` holding `[Music]`, render an object with string `text` and numeric `start` and `duration`, raise otherwise |
| Transcript.Line | app.py:86-88 | defines one rendered line: text, start, and start plus duration, each formatted by `show`, then a newline |
| Transcript.Lines | app.py:83-88 | defines the accumulated text: the lines of the entries, in order |
| Transcript.Speech | app.py:84-88 | there are at most as many rendered captions as entries |
| Transcript.NormalizedText | app.py:78-99 | defines the value `change_transcript_to_txt` returns for each kind of file content |
| Transcript.ChangeTranscriptToTxt | app.py:78-99 | the value returned equals `NormalizedText`: `None` for a missing file or bad JSON, `""` for any other exception, else one line per caption that is not music |
| Transcript.RenderCaptions | app.py:83-90 | the `+=` loop yields the lines of the captions that are not music, in order, or `""` when an entry raises |
| Transcript.SpeechStep | app.py:84-88 | helper for the proofs: one more entry appends its caption, if it has one, at the end |
| Transcript.CleanMeaning | app.py:84-88 | a list is processed without raising exactly when none of its entries raises |
| Transcript.RaiseSpoils | app.py:84-99 | one entry that raises makes the whole list fail |
| Transcript.CleanStep | app.py:84-88 | helper for the proofs: an entry that does not raise keeps the processed prefix free of raising entries |
| Transcript.LinesSnoc | app.py:88 | helper for the proofs: one more caption appends its line at the end |
| Transcript.SpeechAppend | app.py:84-88 | rendering keeps list order: the captions of `a + b` are those of `a` then those of `b` |
| Transcript.SpokenPositions | app.py:84-85 | every position that gets a line is a position of the list |
| Transcript.SpokenPositionsMeaning | app.py:84-85 | the positions that get a line are increasing and are exactly the entries that are neither music nor malformed |
| Transcript.ClassifyMeaning | app.py:85 | an entry is skipped exactly when it is an object with a string `text` holding `[Music]`; a rendered entry never holds the marker |
| Transcript.SpeechHasNoMusic | app.py:84-88 | no rendered caption contains `[Music]` |
| Transcript.SpeechFollowsPositions | app.py:84-88 | the j-th rendered caption is the entry at the j-th speaking position |
| Transcript.LinesCountNewlines | app.py:88 | with no newline inside texts or numbers, the rendered text has one newline per caption |
| Transcript.OneNewlinePerCaption | app.py:83-90 | with no newline inside texts or numbers, the normalised text of a clean transcript has exactly one newline per caption that is not music |
| Transcript.CaptionSpeaks | app.py:85-88 | a well-formed caption whose text does not hold `[Music]` is rendered as itself |
| Transcript.MarkerSkipped | app.py:85 | a `[Music]` caption is skipped |
| Transcript.MusicDropped | app.py:85-88 | a caption followed by a `[Music]` caption renders as the single line of the first |
| Transcript.Header | app.py:109-110 | defines the header line: the folder path joined to the file name, then a newline |
| Transcript.Contribution | app.py:107-112 | defines what one listed file adds: nothing unless it ends in `.json`, else header, text and newline, or the `TypeError` of adding `None` |
| Transcript.Combine | app.py:111-112 | joining two outcomes raises exactly when one of them raised |
| Transcript.LoadedText | app.py:104-113 | defines the value of `load_transcripts`: the contributions of the listed files, in listing order, combined |
| Transcript.LoadTranscripts | app.py:104-113 | the loop returns `LoadedText`: each `.json` file's path header, normalised text and newline, in listing order, or the escaping `TypeError` |
| Transcript.LoadedStep | app.py:107-112 | helper for the proofs: one more listed file appends its contribution |
| Transcript.RaisedPrefix | app.py:111 | once a file's text raises, the whole call raises |
| Transcript.LoadedAppend | app.py:105-112 | the text for `a + b` is the text for `a` followed by that for `b`, and it raises when either half does |
| Transcript.CombineAssociative | app.py:111-112 | accumulating outcomes is associative |
| Transcript.JsonFiles | app.py:107-108 | the kept files all end in `.json`, every listed `.json` file is kept, and every kept file is a listed one |
| Transcript.JsonPositions | app.py:107-108 | every `.json` position is a position of the listing |
| Transcript.JsonFilesFollowPositions | app.py:107-108 | the j-th kept file is the listed file at the j-th `.json` position, with one kept file per position |
| Transcript.JsonPositionsMeaning | app.py:107-108 | the `.json` positions increase and are exactly the positions of files whose names end in `.json`, so each such file is kept once, in listing order |
| Transcript.OnlyJsonFilesCount | app.py:107-108 | files not ending in `.json` contribute nothing |
| Transcript.LoadedRaisesIff | app.py:92-96 | for a listing that was read, `load_transcripts` raises exactly when some `.json` file is missing or holds bad JSON |
| Batch.TranscriptPath | app.py:58 | defines the file name `./transcripts/transcript_{count}.json` |
| Batch.TranscriptPathInjective | app.py:58 | distinct counts never share a file name |
| Batch.SavedNameIsJson | app.py:58 | a saved transcript's name ends in `.json`, so `load_transcripts` picks it up |
| Batch.Stored | app.py:50-51 | the formatter writes a list with one `text`/`start`/`duration` object per caption, in order |
| Batch.FetchTranscript | app.py:41-73 | a file name is returned exactly when the provider yields captions for the URL's identifier, and it is the path for `count` |
| Batch.Outcomes | app.py:44-47 | each URL's outcome is the provider's answer for its identifier, in input order |
| Batch.Successes | app.py:214 | the successes never exceed the number of URLs |
| Batch.SuccessesStep | app.py:255-259 | helper for the proofs: a URL adds one success exactly when its fetch succeeds |
| Batch.CollectedStep | app.py:256-258 | helper for the proofs: a URL appends its read-back text to `final_transcripts` |
| Batch.FetchOne | app.py:255-258 | one pass returns what `fetch_transcript` returns, and the text read back from the saved file (empty when nothing was saved) |
| Batch.Collected | app.py:252-259 | defines `final_transcripts`: the read-back texts of the successful fetches, in URL order |
| Batch.Numbered | app.py:253-259 | defines the i-th call's result: on success, the path numbered one above the successes before it, else `None` |
| Batch.TextOf | app.py:258 | defines the text read back for one fetch: the normalised text of the stored captions, or `""` when nothing was saved |
| Batch.FetchAll | app.py:252-259 | the loop ends with `count` one above the number of successes; the i-th call returns the path numbered one above the successes before it, or `None`; `final_transcripts` is the collected text |
| Batch.SuccessesMonotone | app.py:259 | the count never decreases along the list |
| Batch.NumbersIncrease | app.py:255-259 | successful fetches get strictly increasing numbers in input order |
| Batch.NumbersDense | app.py:255-259 | every number from 1 to the number of successes is given to some successful fetch |
| Batch.SavedFilesDistinct | app.py:255-259 | no two successful fetches of one run are saved under the same name |
| Batch.NonMusic | app.py:84-85 | no kept caption is music, every caption that is not music is kept, and every kept caption is an input caption |
| Batch.KeptPositions | app.py:84-85 | every kept position is a position of the input |
| Batch.NonMusicFollowsPositions | app.py:84-85 | the j-th kept caption is the input caption at the j-th kept position, with one kept caption per position |
| Batch.KeptPositionsMeaning | app.py:84-85 | the kept positions increase and are exactly the captions that are not music, so each is kept once, in input order |
| Batch.CaptionClassified | app.py:85 | a stored caption is skipped when it is music and rendered as itself otherwise |
| Batch.StoredSpeech | app.py:78-90 | a saved transcript reads back without raising, as every caption that is not music, in order |
| Batch.LinesAppend | app.py:258 | the lines of `a + b` are the lines of `a` followed by those of `b` |
| Batch.Spoken | app.py:84-85 | defines the captions of one fetch that reach the prompt: its captions that are not music, none for a failed fetch |
| Batch.TextOfSpoken | app.py:258 | the text read back for one fetch is one line per caption it keeps |
| Batch.Captured | app.py:254-259 | defines every caption that reaches `final_transcripts`: the spoken captions of each fetch, fetch by fetch |
| Batch.CollectedIsCapturedLines | app.py:252-259 | `final_transcripts` has one line per caption that is not music, over all fetched videos, in input and caption order |
| Batch.UrlLines | app.py:251 | the typed input is split into URLs that hold no newline and that join back to the input |
| Extract.Unfence | app.py:172 | `raw[8:-4]` is empty for at most 12 characters; otherwise it is what lies between the first 8 and the last 4 characters |
| Extract.UnfenceWrapped | app.py:172 | any 8 characters before and 4 after are removed exactly |
| Extract.UnfenceCodeBlock | app.py:172 | a reply fenced as a JSON code block gives back the fenced text |
| Extract.ToSeconds | app.py:176-177 | only a string converts, and only when `float` accepts it with its `s` characters deleted |
| Extract.UnitSuffixDropped | app.py:176 | a time such as `12.5s` converts as its number |
| Extract.ConvertFrame | app.py:174-177 | an item converts exactly when it is an object whose `start` and `end` both convert |
| Extract.ConvertFrameFields | app.py:176-177 | a converted item keeps its keys and every other field, and `start`/`end` hold the converted numbers |
| Extract.ConvertItem | app.py:175-177 | converting one item in place gives `ConvertFrame` of it: a frame when `start` and `end` both convert, a failure otherwise |
| Extract.ConvertAll | app.py:174-177 | a successful conversion keeps the number of items |
| Extract.ConvertAllSucceeds | app.py:174-184 | the conversion succeeds exactly when every item converts |
| Extract.ConvertAllAt | app.py:174-177 | a successful conversion holds each item's converted form at the item's position |
| Extract.OneBadItemFailsAll | app.py:182-184 | one item that fails to convert makes the whole conversion fail |
| Extract.ConvertItems | app.py:174-177 | the loop that converts item after item and stops at the first failure gives `ConvertAll` of the items |
| Extract.SortByStart | app.py:179 | sorting keeps the number of frames |
| Extract.InsertPermutes | app.py:179 | inserting adds exactly the inserted frame |
| Extract.SortByStartPermutes | app.py:179 | the sorted frames are a permutation of the input |
| Extract.InsertSorted | app.py:179 | inserting into a sorted list keeps it sorted |
| Extract.SortByStartSorted | app.py:179 | the result is in ascending order of `start` |
| Extract.InsertStable | app.py:179 | an inserted frame goes after the frames with the same start |
| Extract.SortByStartStable | app.py:179 | the frames with equal starts keep their input order (`sorted` is stable) |
| Extract.PostProcessed | app.py:170-184 | defines the answer of the post-processing: decode the cut reply, convert every item, sort by start; `[]` on any failure |
| Extract.PostProcessedMeaning | app.py:170-184 | the answer is sorted; it is `[]` unless the reply is a JSON list whose items all convert, and then it is a stable sorted permutation of the converted items |
| Extract.PostProcess | app.py:170-184 | decoding, converting item by item (stopping at the first failure) and sorting give `PostProcessed` |
| Extract.RelevantText | app.py:116-163 | without an API key the answer is `[]`; with one, the call raises exactly when the model call does |
| Extract.NoKeyNoModelCall | app.py:117-119 | without a key, any two models give the same empty answer |
| Extract.RelevantTextExtractor | app.py:116-184 | the extractor returns `RelevantText`, and any list it returns is sorted by `start` |

## Left out

- The Streamlit interface is not modelled:
  - the inputs;
  - the warnings and errors it shows;
  - the guard chain of the button handler (blank input, missing key, no
    videos, empty `final_transcripts`, blank question);
  - the display of frames.
- The playlist fetch (`fetch_playlist_urls`, pytube) is not modelled. Its URL
  list is an input of `Batch.FetchAll`, like the typed URLs.
- The transcript service, the language model and the prompt template are
  parameters or are left out. The service is taken as deterministic per video
  identifier: a URL listed twice gets the same answer both times, while the
  real network call may answer differently. The counter lemmas hold for any
  sequence of outcomes. The prompt's wording does not influence any
  modelled property.
- The file system is not modelled:
  - A transcript file written by `fetch_transcript` is taken to read back as
    written.
  - `makedirs`, `open` and `write` failures are left out.
  - `os.listdir` order is whatever the input listing says.
  - `os.listdir` failing (no `./transcripts/` folder yet) is not modelled: the
    listing is an input, so `load_transcripts` cannot raise there.
- Floating point, `round` and `str` of a float are the parameters `show` and
  `parse`. NaN and infinities are not modelled.
- Transcript.Classify: an integer-valued JSON number, a boolean used as a
  number, a list-valued `text` and a dict-valued `text` are not distinguished
  from the other cases. The first two are numbers in Python. A list `text` is
  searched with `in` for an element equal to `[Music]`. A dict `text` is
  searched by key, so it is skipped when it has a `[Music]` key and is
  rendered otherwise. The model treats a non-number time and any non-string
  text as raising.
- Transcript.OneNewlinePerCaption: requires that no caption text and no
  formatted number holds a newline. A caption whose text holds a newline is
  rendered with more than one.
- Transcript.LinesCountNewlines: requires that no caption text and no
  formatted number holds a newline. A text with a newline spans several
  physical lines.
- Console `print` logging is left out.
- Extract.PostProcess: builds each converted item as a new dictionary rather
  than updating the decoded dictionary in place. The decoded items are fresh
  objects, so no other reference can observe the difference.
