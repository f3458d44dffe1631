/** The batch loop of the button handler: for each URL in order,
    `fetch_transcript(url, count)` either saves the transcript as
    `./transcripts/transcript_{count}.json` and returns that name, or
    returns `None`; only a saved transcript advances `count` and adds its
    normalised text to `final_transcripts`.

    The transcript provider is the parameter `provider`, keyed by video
    identifier; the file a fetch writes is read back as it was written. */
module Batch {
  import opened Optional
  import opened Text
  import opened JsonValue
  import opened VideoId
  import opened Transcript

  /** What the provider does for one video identifier: the captions, or
      one of the failures `fetch_transcript` catches. */
  datatype Fetch =
    | Captions(entries: seq<Entry>)
    | VideoUnavailable
    | TranscriptsDisabled
    | NoTranscriptFound
    | OtherError

  /** The file name a fetch saves under. */
  function TranscriptPath(count: nat): string
  {
    Folder + "transcript_" + Decimal(count) + ".json"
  }

  /** Distinct counts never share a file. */
  lemma TranscriptPathInjective(a: nat, b: nat)
    requires TranscriptPath(a) == TranscriptPath(b)
    ensures a == b
  {
    var prefix := Folder + "transcript_";
    var pa, pb := TranscriptPath(a), TranscriptPath(b);
    assert Decimal(a) == pa[|prefix|..|pa| - 5];
    assert Decimal(b) == pb[|prefix|..|pb| - 5];
    DecimalInjective(a, b);
  }

  /** A saved transcript is one `load_transcripts` would pick up. */
  lemma SavedNameIsJson(count: nat)
    ensures IsJsonName("transcript_" + Decimal(count) + ".json")
  {
    var name := "transcript_" + Decimal(count) + ".json";
    assert name[|name| - 5..] == ".json";
  }

  /** The JSON list the formatter writes for a list of captions. */
  function Stored(entries: seq<Entry>): (doc: Json)
    ensures doc.JList? && |doc.items| == |entries|
    ensures forall k :: 0 <= k < |entries| ==>
      doc.items[k] == Caption(entries[k].text, entries[k].start, entries[k].duration)
  {
    JList(seq(|entries|, k requires 0 <= k < |entries| =>
      Caption(entries[k].text, entries[k].start, entries[k].duration)))
  }

  /** `fetch_transcript`: the file name on success, `None` on any of the
      caught failures. */
  function FetchTranscript(url: string, count: nat, provider: string -> Fetch): (filename: Option<string>)
    ensures filename.Some? <==> provider(VideoIdOf(url)).Captions?
    ensures filename.Some? ==> filename.value == TranscriptPath(count)
  {
    match provider(VideoIdOf(url))
    case Captions(_) => Some(TranscriptPath(count))
    case _ => None
  }

  /** What the provider answers for each URL, in input order. */
  function Outcomes(urls: seq<string>, provider: string -> Fetch): (outcomes: seq<Fetch>)
    ensures |outcomes| == |urls|
    ensures forall i :: 0 <= i < |urls| ==> outcomes[i] == provider(VideoIdOf(urls[i]))
  {
    seq(|urls|, i requires 0 <= i < |urls| => provider(VideoIdOf(urls[i])))
  }

  /** How many fetches succeed. */
  function Successes(outcomes: seq<Fetch>): (n: nat)
    ensures n <= |outcomes|
  {
    if outcomes == [] then 0
    else Successes(outcomes[..|outcomes| - 1]) + (if outcomes[|outcomes| - 1].Captions? then 1 else 0)
  }

  /** The normalised text of a fetched transcript, as read back from the
      file it was saved in (empty if the fetch failed). */
  function TextOf(outcome: Fetch, show: real -> string): string
  {
    match outcome
    case Captions(entries) => NormalizedText(Parsed(Stored(entries)), show).value
    case _ => ""
  }

  /** `final_transcripts` after the loop has seen `outcomes`. */
  function Collected(outcomes: seq<Fetch>, show: real -> string): string
  {
    if outcomes == [] then ""
    else Collected(outcomes[..|outcomes| - 1], show) + TextOf(outcomes[|outcomes| - 1], show)
  }

  /** The file name the i-th URL is saved under, if its fetch succeeds: the
      number is one more than the successes before it. */
  function Numbered(outcomes: seq<Fetch>, i: nat): Option<string>
    requires i < |outcomes|
  {
    if outcomes[i].Captions? then Some(TranscriptPath(1 + Successes(outcomes[..i]))) else None
  }

  lemma SuccessesStep(outcomes: seq<Fetch>, i: nat)
    requires i < |outcomes|
    ensures Successes(outcomes[..i + 1]) == Successes(outcomes[..i]) + (if outcomes[i].Captions? then 1 else 0)
  {
    assert outcomes[..i + 1][..i] == outcomes[..i];
  }

  lemma CollectedStep(outcomes: seq<Fetch>, show: real -> string, i: nat)
    requires i < |outcomes|
    ensures Collected(outcomes[..i + 1], show) == Collected(outcomes[..i], show) + TextOf(outcomes[i], show)
  {
    assert outcomes[..i + 1][..i] == outcomes[..i];
  }

  /** One pass of the loop body at app.py:255-259: fetch and save the
      transcript, then read the saved file back. The file holds what the
      formatter wrote for the captions. */
  method FetchOne(url: string, count: nat, provider: string -> Fetch, show: real -> string)
    returns (filename: Option<string>, text: string)
    ensures filename == FetchTranscript(url, count, provider)
    ensures text == TextOf(provider(VideoIdOf(url)), show)
  {
    filename := FetchTranscript(url, count, provider);
    var outcome := provider(VideoIdOf(url));
    if outcome.Captions? {
      var read := ChangeTranscriptToTxt(Parsed(Stored(outcome.entries)), show);
      text := read.value;
    } else {
      text := "";
    }
  }

  /** The loop at app.py:206-214 and app.py:252-259. `filenames[i]` is what
      the i-th call of `fetch_transcript` returned. */
  method FetchAll(urls: seq<string>, provider: string -> Fetch, show: real -> string)
    returns (count: nat, filenames: seq<Option<string>>, finalTranscripts: string)
    ensures count == 1 + Successes(Outcomes(urls, provider))
    ensures |filenames| == |urls|
    ensures forall i :: 0 <= i < |urls| ==> filenames[i] == Numbered(Outcomes(urls, provider), i)
    ensures finalTranscripts == Collected(Outcomes(urls, provider), show)
  {
    ghost var outcomes := Outcomes(urls, provider);
    finalTranscripts := "";
    count := 1;
    filenames := [];
    for i := 0 to |urls|
      invariant count == 1 + Successes(outcomes[..i])
      invariant |filenames| == i
      invariant forall j :: 0 <= j < i ==> filenames[j] == Numbered(outcomes, j)
      invariant finalTranscripts == Collected(outcomes[..i], show)
    {
      SuccessesStep(outcomes, i);
      CollectedStep(outcomes, show, i);
      var filename, text := FetchOne(urls[i], count, provider, show);
      assert filename == Numbered(outcomes, i);
      ghost var earlier := filenames;
      filenames := filenames + [filename];
      forall j | 0 <= j < i + 1
        ensures filenames[j] == Numbered(outcomes, j)
      {
        if j < i {
          assert filenames[j] == earlier[j];
        }
      }
      if filename.Some? {
        finalTranscripts := finalTranscripts + text;
        count := count + 1;
      } else {
        assert text == "";
        assert finalTranscripts + "" == finalTranscripts;
      }
    }
    assert outcomes[..|urls|] == outcomes;
  }

  /** Successes only grow along the list. */
  lemma {:induction false} SuccessesMonotone(outcomes: seq<Fetch>, i: nat, j: nat)
    requires i <= j <= |outcomes|
    ensures Successes(outcomes[..i]) <= Successes(outcomes[..j])
    decreases j - i
  {
    if i < j {
      SuccessesMonotone(outcomes, i, j - 1);
      SuccessesStep(outcomes, j - 1);
    }
  }

  /** Successful fetches get strictly increasing numbers in input order,
      so no two of them share a file. */
  lemma NumbersIncrease(outcomes: seq<Fetch>, i: nat, j: nat)
    requires i < j < |outcomes| && outcomes[i].Captions?
    ensures Successes(outcomes[..i]) < Successes(outcomes[..j])
  {
    SuccessesStep(outcomes, i);
    SuccessesMonotone(outcomes, i + 1, j);
  }

  /** Every number from 1 to the number of successes is given to some
      successful fetch: the numbering has no gaps. */
  lemma {:induction false} NumbersDense(outcomes: seq<Fetch>, n: nat)
    requires 1 <= n <= Successes(outcomes)
    ensures exists i ::
      0 <= i < |outcomes| && outcomes[i].Captions? && 1 + Successes(outcomes[..i]) == n
  {
    var m := |outcomes| - 1;
    var before := outcomes[..m];
    if n <= Successes(before) {
      NumbersDense(before, n);
      var i :| 0 <= i < m && before[i].Captions? && 1 + Successes(before[..i]) == n;
      assert before[..i] == outcomes[..i];
    } else {
      assert outcomes[m].Captions?;
    }
  }

  /** No saved transcript overwrites an earlier one from the same run. */
  lemma SavedFilesDistinct(outcomes: seq<Fetch>, i: nat, j: nat)
    requires i < j < |outcomes| && outcomes[i].Captions? && outcomes[j].Captions?
    ensures Numbered(outcomes, i) != Numbered(outcomes, j)
  {
    NumbersIncrease(outcomes, i, j);
    if Numbered(outcomes, i) == Numbered(outcomes, j) {
      TranscriptPathInjective(1 + Successes(outcomes[..i]), 1 + Successes(outcomes[..j]));
    }
  }

  /** The captions that are not music, in order. */
  function NonMusic(entries: seq<Entry>): (kept: seq<Entry>)
    ensures forall e :: e in kept ==> !IsMusic(e.text)
    ensures forall e :: e in entries && !IsMusic(e.text) ==> e in kept
    ensures forall e :: e in kept ==> e in entries
  {
    if entries == [] then []
    else
      var e := entries[|entries| - 1];
      var before := entries[..|entries| - 1];
      assert forall x :: x in entries ==> x in before || x == e;
      NonMusic(before) + (if IsMusic(e.text) then [] else [e])
  }

  /** Positions of the captions that are not music, in increasing order. */
  function KeptPositions(entries: seq<Entry>): (ks: seq<nat>)
    ensures forall j :: 0 <= j < |ks| ==> ks[j] < |entries|
  {
    if entries == [] then []
    else
      var n := |entries| - 1;
      if IsMusic(entries[n].text) then KeptPositions(entries[..n]) else KeptPositions(entries[..n]) + [n]
  }

  /** `NonMusic` takes its captions from the input by position: its j-th
      caption is the input caption at the j-th kept position. With
      `KeptPositionsMeaning`, each caption that is not music is kept once,
      in input order, and nothing else is. */
  lemma {:induction false} NonMusicFollowsPositions(entries: seq<Entry>)
    ensures |NonMusic(entries)| == |KeptPositions(entries)|
    ensures forall j :: 0 <= j < |NonMusic(entries)| ==> NonMusic(entries)[j] == entries[KeptPositions(entries)[j]]
  {
    if entries != [] {
      var n := |entries| - 1;
      var before := entries[..n];
      NonMusicFollowsPositions(before);
      var ks, kept := KeptPositions(before), NonMusic(before);
      if IsMusic(entries[n].text) {
        assert KeptPositions(entries) == ks;
        assert NonMusic(entries) == kept;
      } else {
        assert KeptPositions(entries) == ks + [n];
        assert NonMusic(entries) == kept + [entries[n]];
      }
      forall j | 0 <= j < |kept|
        ensures NonMusic(entries)[j] == entries[KeptPositions(entries)[j]]
      {
        assert KeptPositions(entries)[j] == ks[j] && NonMusic(entries)[j] == kept[j];
        assert before[ks[j]] == entries[ks[j]];
      }
    }
  }

  /** The kept positions increase and are exactly those of the captions
      that are not music. */
  lemma {:induction false} KeptPositionsMeaning(entries: seq<Entry>)
    ensures forall j, j' :: 0 <= j < j' < |KeptPositions(entries)| ==> KeptPositions(entries)[j] < KeptPositions(entries)[j']
    ensures forall k :: 0 <= k < |entries| ==> (!IsMusic(entries[k].text) <==> k in KeptPositions(entries))
  {
    if entries != [] {
      var n := |entries| - 1;
      KeptPositionsMeaning(entries[..n]);
      assert forall k :: 0 <= k < n ==> entries[..n][k] == entries[k];
    }
  }

  lemma CaptionClassified(e: Entry)
    ensures Classify(Caption(e.text, e.start, e.duration)) == if IsMusic(e.text) then Skip else Speak(e)
  {
  }

  /** A stored transcript reads back as every caption that is not music,
      in order, and never raises. */
  lemma {:induction false} StoredSpeech(entries: seq<Entry>)
    ensures Clean(Stored(entries).items)
    ensures Speech(Stored(entries).items) == NonMusic(entries)
  {
    var items := Stored(entries).items;
    if entries != [] {
      var m := |entries| - 1;
      StoredSpeech(entries[..m]);
      assert items[..m] == Stored(entries[..m]).items;
      CaptionClassified(entries[m]);
    }
  }

  lemma {:induction false} LinesAppend(a: seq<Entry>, b: seq<Entry>, show: real -> string)
    ensures Lines(a + b, show) == Lines(a, show) + Lines(b, show)
    decreases |b|
  {
    if b == [] {
      assert a + b == a;
    } else {
      var b' := b[..|b| - 1];
      var x := b[|b| - 1];
      assert (a + b)[..|a + b| - 1] == a + b';
      assert (a + b)[|a + b| - 1] == x;
      LinesAppend(a, b', show);
      assert Lines(a + b, show) == Lines(a + b', show) + Line(x, show);
      assert Lines(b, show) == Lines(b', show) + Line(x, show);
      ConcatAssoc(Lines(a, show), Lines(b', show), Line(x, show));
    }
  }

  /** The captions of one fetch that reach the prompt. */
  function Spoken(outcome: Fetch): seq<Entry>
  {
    if outcome.Captions? then NonMusic(outcome.entries) else []
  }

  /** The text read back for one fetch is one line per caption it keeps. */
  lemma TextOfSpoken(outcome: Fetch, show: real -> string)
    ensures TextOf(outcome, show) == Lines(Spoken(outcome), show)
  {
    if outcome.Captions? {
      StoredSpeech(outcome.entries);
    }
  }

  /** Every caption that reaches the prompt, in order: the captions that
      are not music of each fetched transcript, transcript by transcript. */
  function Captured(outcomes: seq<Fetch>): seq<Entry>
  {
    if outcomes == [] then []
    else Captured(outcomes[..|outcomes| - 1]) + Spoken(outcomes[|outcomes| - 1])
  }

  /** `final_transcripts` holds one line per caption that is not music,
      across all fetched videos, in input order and caption order. */
  lemma {:induction false} CollectedIsCapturedLines(outcomes: seq<Fetch>, show: real -> string)
    ensures Collected(outcomes, show) == Lines(Captured(outcomes), show)
  {
    if outcomes != [] {
      var before := outcomes[..|outcomes| - 1];
      var last := outcomes[|outcomes| - 1];
      CollectedIsCapturedLines(before, show);
      TextOfSpoken(last, show);
      LinesAppend(Captured(before), Spoken(last), show);
    }
  }

  /** The individual-video input, one URL per line (`split("\n")`): no URL
      holds a newline and joining them gives the input back. */
  function UrlLines(input: string): (urls: seq<string>)
    ensures |urls| >= 1
    ensures forall k :: 0 <= k < |urls| ==> '\n' !in urls[k]
    ensures Join(urls, "\n") == input
  {
    var urls := Split(input, "\n");
    JoinSplit(input, "\n");
    SplitPiecesFree(input, "\n");
    forall k | 0 <= k < |urls| ensures '\n' !in urls[k] {
      ContainsChar(urls[k], '\n');
    }
    urls
  }
}
