/** Transcript normalisation: `change_transcript_to_txt` renders a stored
    transcript as one text line per caption that is not a `[Music]`
    marker, and `load_transcripts` gathers every `.json` file of the
    transcripts folder under a path header.

    Number formatting (`round(x, 2)` printed by an f-string) is the
    parameter `show`; the file system is the input `FileContent`. */
module Transcript {
  import opened Optional
  import opened Text
  import opened JsonValue

  /** One caption as the transcript provider returns it. */
  datatype Entry = Entry(text: string, start: real, duration: real)

  const MusicMarker: string := "[Music]"

  predicate IsMusic(text: string)
  {
    Contains(text, MusicMarker)
  }

  /** What the loop does with one element of the decoded list: skip it,
      render it, or raise (a missing key or a value of the wrong type). */
  datatype Step = Skip | Speak(entry: Entry) | Raise

  function Classify(item: Json): Step
  {
    if item.JObject? && "text" in item.fields && item.fields["text"].JStr? then
      var fields := item.fields;
      var text := fields["text"].str;
      if IsMusic(text) then Skip
      else if "start" in fields && fields["start"].JNum? &&
              "duration" in fields && fields["duration"].JNum? then
        Speak(Entry(text, fields["start"].num, fields["duration"].num))
      else Raise
    else Raise
  }

  /** An element is skipped exactly when it is an object whose `text` is
      a string holding the marker, and a rendered caption never holds it. */
  lemma ClassifyMeaning(item: Json)
    ensures Classify(item).Speak? ==> !IsMusic(Classify(item).entry.text)
    ensures Classify(item).Skip? <==>
      item.JObject? && "text" in item.fields && item.fields["text"].JStr? &&
      IsMusic(item.fields["text"].str)
  {
  }

  /** The line rendered for one caption; its end time is start plus
      duration of the same caption. */
  function Line(e: Entry, show: real -> string): string
  {
    "Text: " + e.text + ", Start: " + show(e.start) + ", End: " + show(e.start + e.duration) + "\n"
  }

  /** No element of the list makes the loop raise. */
  predicate Clean(items: seq<Json>)
  {
    items == [] || (Clean(items[..|items| - 1]) && !Classify(items[|items| - 1]).Raise?)
  }

  /** `Clean` holds exactly when no element raises. */
  lemma {:induction false} CleanMeaning(items: seq<Json>)
    ensures Clean(items) <==> forall k :: 0 <= k < |items| ==> !Classify(items[k]).Raise?
  {
    if items != [] {
      var n := |items| - 1;
      CleanMeaning(items[..n]);
      assert forall k :: 0 <= k < n ==> items[..n][k] == items[k];
    }
  }

  /** One element that raises spoils the whole list. */
  lemma {:induction false} RaiseSpoils(items: seq<Json>, i: nat)
    requires i < |items| && Classify(items[i]).Raise?
    ensures !Clean(items)
  {
    var n := |items| - 1;
    if i < n {
      assert items[..n][i] == items[i];
      RaiseSpoils(items[..n], i);
    }
  }

  /** The captions that get a line, in list order. */
  function Speech(items: seq<Json>): (spoken: seq<Entry>)
    ensures |spoken| <= |items|
  {
    if items == [] then []
    else
      var before := Speech(items[..|items| - 1]);
      match Classify(items[|items| - 1])
      case Speak(e) => before + [e]
      case _ => before
  }

  /** The lines of `entries`, concatenated in order. */
  function Lines(entries: seq<Entry>, show: real -> string): string
  {
    if entries == [] then ""
    else Lines(entries[..|entries| - 1], show) + Line(entries[|entries| - 1], show)
  }

  /** A transcript file as `open` and `json.load` find it. `Unreadable`
      stands for every other failure to open or read it. */
  datatype FileContent = Missing | Undecodable | Unreadable | Parsed(doc: Json)

  /** The value `change_transcript_to_txt` returns: `None` for a missing
      file or bad JSON (those handlers fall through), the empty string for
      any other exception, and the rendered lines otherwise. */
  function NormalizedText(content: FileContent, show: real -> string): Option<string>
  {
    match content
    case Missing => None
    case Undecodable => None
    case Unreadable => Some("")
    case Parsed(doc) =>
      if doc.JList? && Clean(doc.items) then Some(Lines(Speech(doc.items), show))
      else Some("")
  }

  method ChangeTranscriptToTxt(content: FileContent, show: real -> string) returns (r: Option<string>)
    ensures r == NormalizedText(content, show)
  {
    match content
    case Missing => r := None;
    case Undecodable => r := None;
    case Unreadable => r := Some("");
    case Parsed(doc) =>
      if doc.JList? {
        var text := RenderCaptions(doc.items, show);
        r := Some(text);
      } else {
        // Iterating a non-list either raises or yields nothing.
        r := Some("");
      }
  }

  /** The loop of `change_transcript_to_txt`: one `+=` per caption that is
      not music; an element that raises discards everything and gives "". */
  method RenderCaptions(items: seq<Json>, show: real -> string) returns (textContent: string)
    ensures textContent == if Clean(items) then Lines(Speech(items), show) else ""
  {
    textContent := "";
    var i := 0;
    while i < |items|
      invariant 0 <= i <= |items|
      invariant Clean(items[..i])
      invariant textContent == Lines(Speech(items[..i]), show)
    {
      var step := Classify(items[i]);
      if step.Raise? {
        RaiseSpoils(items, i);
        return "";
      }
      CleanStep(items, i);
      SpeechStep(items, i);
      if step.Speak? {
        LinesSnoc(Speech(items[..i]), step.entry, show);
        textContent := textContent + Line(step.entry, show);
      } else {
        assert Speech(items[..i + 1]) == Speech(items[..i]);
      }
      i := i + 1;
    }
    assert items[..i] == items;
  }

  /** One more element that does not raise keeps the prefix clean. */
  lemma CleanStep(items: seq<Json>, i: nat)
    requires i < |items| && Clean(items[..i]) && !Classify(items[i]).Raise?
    ensures Clean(items[..i + 1])
  {
    assert items[..i + 1][..i] == items[..i];
  }

  /** One more element: its caption, if it has one, comes last. */
  lemma SpeechStep(items: seq<Json>, i: nat)
    requires i < |items|
    ensures Speech(items[..i + 1]) ==
      Speech(items[..i]) + (if Classify(items[i]).Speak? then [Classify(items[i]).entry] else [])
  {
    assert items[..i + 1][..i] == items[..i];
  }

  /** One more caption: its line comes last. */
  lemma LinesSnoc(entries: seq<Entry>, e: Entry, show: real -> string)
    ensures Lines(entries + [e], show) == Lines(entries, show) + Line(e, show)
  {
    assert (entries + [e])[..|entries|] == entries;
  }

  /** No rendered caption is a music marker. */
  lemma {:induction false} SpeechHasNoMusic(items: seq<Json>)
    ensures forall e :: e in Speech(items) ==> !IsMusic(e.text)
  {
    if items != [] {
      SpeechHasNoMusic(items[..|items| - 1]);
      ClassifyMeaning(items[|items| - 1]);
    }
  }

  /** Rendering keeps list order: the captions of `a + b` are those of
      `a` followed by those of `b`. */
  lemma {:induction false} SpeechAppend(a: seq<Json>, b: seq<Json>)
    ensures Speech(a + b) == Speech(a) + Speech(b)
    decreases |b|
  {
    if b == [] {
      assert a + b == a;
    } else {
      var b' := b[..|b| - 1];
      assert (a + b)[..|a + b| - 1] == a + b';
      assert (a + b)[|a + b| - 1] == b[|b| - 1];
      SpeechAppend(a, b');
    }
  }

  /** Positions of the list elements that get a line, in increasing order. */
  function SpokenPositions(items: seq<Json>): (ks: seq<nat>)
    ensures forall j :: 0 <= j < |ks| ==> ks[j] < |items|
  {
    if items == [] then []
    else
      var n := |items| - 1;
      if Classify(items[n]).Speak? then SpokenPositions(items[..n]) + [n] else SpokenPositions(items[..n])
  }

  /** The speaking positions increase and are exactly the elements that
      are neither music nor malformed. */
  lemma {:induction false} SpokenPositionsMeaning(items: seq<Json>)
    ensures forall j, j' :: 0 <= j < j' < |SpokenPositions(items)| ==> SpokenPositions(items)[j] < SpokenPositions(items)[j']
    ensures forall k :: 0 <= k < |items| ==> (Classify(items[k]).Speak? <==> k in SpokenPositions(items))
  {
    if items != [] {
      var n := |items| - 1;
      SpokenPositionsMeaning(items[..n]);
      assert forall k :: 0 <= k < n ==> items[..n][k] == items[k];
    }
  }

  /** Exactly one line per caption that is not music, and in list order:
      the j-th rendered caption is the caption at the j-th speaking
      position. */
  lemma {:induction false} SpeechFollowsPositions(items: seq<Json>)
    ensures |Speech(items)| == |SpokenPositions(items)|
    ensures forall j :: 0 <= j < |Speech(items)| ==>
      Classify(items[SpokenPositions(items)[j]]) == Speak(Speech(items)[j])
  {
    if items != [] {
      var n := |items| - 1;
      var before := items[..n];
      SpeechFollowsPositions(before);
      var ks, spoken := SpokenPositions(before), Speech(before);
      if Classify(items[n]).Speak? {
        assert SpokenPositions(items) == ks + [n];
        assert Speech(items) == spoken + [Classify(items[n]).entry];
      } else {
        assert SpokenPositions(items) == ks;
        assert Speech(items) == spoken;
      }
      forall j | 0 <= j < |spoken|
        ensures Classify(items[SpokenPositions(items)[j]]) == Speak(Speech(items)[j])
      {
        assert SpokenPositions(items)[j] == ks[j] && Speech(items)[j] == spoken[j];
        assert items[ks[j]] == before[ks[j]];
      }
    }
  }

  lemma {:induction false} LinesCountNewlines(entries: seq<Entry>, show: real -> string)
    requires forall j :: 0 <= j < |entries| ==> '\n' !in entries[j].text
    requires forall x: real :: '\n' !in show(x)
    ensures CountChar(Lines(entries, show), '\n') == |entries|
  {
    if entries != [] {
      var e := entries[|entries| - 1];
      var before := entries[..|entries| - 1];
      LinesCountNewlines(before, show);
      var body := "Text: " + e.text + ", Start: " + show(e.start) + ", End: " + show(e.start + e.duration);
      assert Line(e, show) == body + "\n";
      assert '\n' !in body;
      CountCharAbsent(body, '\n');
      CountCharAppend(body, "\n", '\n');
      CountCharAppend(Lines(before, show), Line(e, show), '\n');
    }
  }

  /** When no caption text and no formatted number holds a newline, the
      normalised text of a clean transcript has exactly one newline per
      caption that is not music. */
  lemma OneNewlinePerCaption(items: seq<Json>, show: real -> string)
    requires Clean(items)
    requires forall k :: 0 <= k < |items| && Classify(items[k]).Speak? ==> '\n' !in Classify(items[k]).entry.text
    requires forall x: real :: '\n' !in show(x)
    ensures NormalizedText(Parsed(JList(items)), show) == Some(Lines(Speech(items), show))
    ensures CountChar(Lines(Speech(items), show), '\n') == |SpokenPositions(items)|
  {
    SpeechFollowsPositions(items);
    var spoken := Speech(items);
    forall j | 0 <= j < |spoken| ensures '\n' !in spoken[j].text {
      assert Classify(items[SpokenPositions(items)[j]]) == Speak(spoken[j]);
    }
    LinesCountNewlines(spoken, show);
  }

  function Caption(text: string, start: real, duration: real): Json
  {
    JObject(map["text" := JStr(text), "start" := JNum(start), "duration" := JNum(duration)])
  }

  /** A caption followed by a music marker renders as exactly one line,
      for the caption. */
  lemma MusicDropped(show: real -> string)
    ensures NormalizedText(Parsed(JList([Caption("a", 0.0, 1.0), Caption("[Music]", 1.0, 1.0)])), show)
         == Some("Text: a, Start: " + show(0.0) + ", End: " + show(1.0) + "\n")
  {
    var items := [Caption("a", 0.0, 1.0), Caption("[Music]", 1.0, 1.0)];
    ExampleSpeech(items);
    ExampleLine(Entry("a", 0.0, 1.0), show);
  }

  lemma ExampleLine(e: Entry, show: real -> string)
    requires e == Entry("a", 0.0, 1.0)
    ensures Lines([e], show) == "Text: a, Start: " + show(0.0) + ", End: " + show(1.0) + "\n"
  {
    assert [e][..0] == [];
    assert e.start + e.duration == 1.0;
    assert "Text: " + "a" + ", Start: " == "Text: a, Start: ";
  }

  lemma ExampleSpeech(items: seq<Json>)
    requires items == [Caption("a", 0.0, 1.0), Caption("[Music]", 1.0, 1.0)]
    ensures Clean(items) && Speech(items) == [Entry("a", 0.0, 1.0)]
  {
    assert !IsMusic("a");
    CaptionSpeaks("a", 0.0, 1.0);
    MarkerSkipped(1.0, 1.0);
    assert items[..1][..0] == [];
    assert items[..1] == [items[0]];
    assert Speech(items[..1]) == [Entry("a", 0.0, 1.0)];
  }

  lemma CaptionSpeaks(text: string, start: real, duration: real)
    requires !IsMusic(text)
    ensures Classify(Caption(text, start, duration)) == Speak(Entry(text, start, duration))
  {
  }

  lemma MarkerSkipped(start: real, duration: real)
    ensures Classify(Caption(MusicMarker, start, duration)) == Skip
  {
    assert OccursAt(MusicMarker, MusicMarker, 0);
  }

  // ---------------------------------------------------------------------
  // load_transcripts

  /** A directory listing entry: a file name and what reading it gives. */
  datatype DirEntry = DirEntry(name: string, content: FileContent)

  /** The outcome of `load_transcripts`: its text, or the `TypeError` that
      escapes it when a file's normalised text is `None`. */
  datatype Loaded = Loaded(text: string) | Raised

  const Folder: string := "./transcripts/"

  predicate IsJsonName(name: string)
  {
    EndsWith(name, ".json")
  }

  /** The path header written before each file's text. */
  function Header(name: string): string
  {
    Folder + name + "\n"
  }

  /** What one listed file adds: nothing unless it is named `*.json`;
      else its path header, its normalised text and a newline, or the
      `TypeError` of adding `None` to a string. */
  function Contribution(d: DirEntry, show: real -> string): Loaded
  {
    if !IsJsonName(d.name) then Loaded("")
    else match NormalizedText(d.content, show)
      case None => Raised
      case Some(text) => Loaded(Header(d.name) + text + "\n")
  }

  /** Two outcomes one after the other: the texts joined, or `Raised` if
      either raised. */
  function Combine(x: Loaded, y: Loaded): (r: Loaded)
    ensures r.Raised? <==> x.Raised? || y.Raised?
  {
    if x.Loaded? && y.Loaded? then Loaded(x.text + y.text) else Raised
  }

  /** What `load_transcripts` returns for a listing, in listing order. */
  function LoadedText(listing: seq<DirEntry>, show: real -> string): Loaded
  {
    if listing == [] then Loaded("")
    else Combine(LoadedText(listing[..|listing| - 1], show), Contribution(listing[|listing| - 1], show))
  }

  method LoadTranscripts(listing: seq<DirEntry>, show: real -> string) returns (r: Loaded)
    ensures r == LoadedText(listing, show)
  {
    var transcripts := "";
    var i := 0;
    while i < |listing|
      invariant 0 <= i <= |listing|
      invariant LoadedText(listing[..i], show) == Loaded(transcripts)
    {
      LoadedStep(listing, i, show);
      var d := listing[i];
      if IsJsonName(d.name) {
        var text := Header(d.name);
        var body := ChangeTranscriptToTxt(d.content, show);
        if body.None? {
          // `str + None` raises; nothing catches it.
          RaisedPrefix(listing, i + 1, show);
          return Raised;
        }
        text := text + body.value;
        transcripts := transcripts + text + "\n";
      } else {
        assert transcripts + "" == transcripts;
      }
      i := i + 1;
    }
    assert listing[..i] == listing;
    return Loaded(transcripts);
  }

  lemma LoadedStep(listing: seq<DirEntry>, i: nat, show: real -> string)
    requires i < |listing|
    ensures LoadedText(listing[..i + 1], show) == Combine(LoadedText(listing[..i], show), Contribution(listing[i], show))
  {
    assert listing[..i + 1][..i] == listing[..i];
  }

  /** Once a prefix of the listing raises, the whole listing does. */
  lemma RaisedPrefix(listing: seq<DirEntry>, n: nat, show: real -> string)
    requires n <= |listing| && LoadedText(listing[..n], show).Raised?
    ensures LoadedText(listing, show).Raised?
  {
    LoadedAppend(listing[..n], listing[n..], show);
    assert listing[..n] + listing[n..] == listing;
  }

  /** Contributions follow the listing: the text for `a + b` is the text
      for `a` followed by the text for `b`, and either half raising makes
      the whole raise. */
  lemma {:induction false} LoadedAppend(a: seq<DirEntry>, b: seq<DirEntry>, show: real -> string)
    ensures LoadedText(a + b, show) == Combine(LoadedText(a, show), LoadedText(b, show))
    decreases |b|
  {
    if b == [] {
      assert a + b == a;
    } else {
      var b' := b[..|b| - 1];
      var d := b[|b| - 1];
      assert (a + b)[..|a + b| - 1] == a + b';
      assert (a + b)[|a + b| - 1] == d;
      LoadedAppend(a, b', show);
      CombineAssociative(LoadedText(a, show), LoadedText(b', show), Contribution(d, show));
    }
  }

  lemma CombineAssociative(x: Loaded, y: Loaded, z: Loaded)
    ensures Combine(Combine(x, y), z) == Combine(x, Combine(y, z))
  {
    if x.Loaded? && y.Loaded? && z.Loaded? {
      ConcatAssoc(x.text, y.text, z.text);
    }
  }

  /** The files `load_transcripts` processes: those named `*.json`. */
  function JsonFiles(listing: seq<DirEntry>): (kept: seq<DirEntry>)
    ensures forall d :: d in kept ==> IsJsonName(d.name)
    ensures forall d :: d in listing && IsJsonName(d.name) ==> d in kept
    ensures forall d :: d in kept ==> d in listing
  {
    if listing == [] then []
    else
      var d := listing[|listing| - 1];
      var before := listing[..|listing| - 1];
      assert forall x :: x in listing ==> x in before || x == d;
      if IsJsonName(d.name) then JsonFiles(before) + [d] else JsonFiles(before)
  }

  /** Positions of the `.json` files of a listing, in increasing order. */
  function JsonPositions(listing: seq<DirEntry>): (ks: seq<nat>)
    ensures forall j :: 0 <= j < |ks| ==> ks[j] < |listing|
  {
    if listing == [] then []
    else
      var n := |listing| - 1;
      if IsJsonName(listing[n].name) then JsonPositions(listing[..n]) + [n] else JsonPositions(listing[..n])
  }

  /** `JsonFiles` takes its files from the listing by position: its j-th
      file is the listed file at the j-th `.json` position. With
      `JsonPositionsMeaning`, each `.json` file is kept once, in listing
      order, and nothing else is. */
  lemma {:induction false} JsonFilesFollowPositions(listing: seq<DirEntry>)
    ensures |JsonFiles(listing)| == |JsonPositions(listing)|
    ensures forall j :: 0 <= j < |JsonFiles(listing)| ==> JsonFiles(listing)[j] == listing[JsonPositions(listing)[j]]
  {
    if listing != [] {
      var n := |listing| - 1;
      var before := listing[..n];
      JsonFilesFollowPositions(before);
      var ks, kept := JsonPositions(before), JsonFiles(before);
      if IsJsonName(listing[n].name) {
        assert JsonPositions(listing) == ks + [n];
        assert JsonFiles(listing) == kept + [listing[n]];
      } else {
        assert JsonPositions(listing) == ks;
        assert JsonFiles(listing) == kept;
      }
      forall j | 0 <= j < |kept|
        ensures JsonFiles(listing)[j] == listing[JsonPositions(listing)[j]]
      {
        assert JsonPositions(listing)[j] == ks[j] && JsonFiles(listing)[j] == kept[j];
        assert before[ks[j]] == listing[ks[j]];
      }
    }
  }

  /** The `.json` positions increase and are exactly those of the files
      whose names end in `.json`. */
  lemma {:induction false} JsonPositionsMeaning(listing: seq<DirEntry>)
    ensures forall j, j' :: 0 <= j < j' < |JsonPositions(listing)| ==> JsonPositions(listing)[j] < JsonPositions(listing)[j']
    ensures forall k :: 0 <= k < |listing| ==> (IsJsonName(listing[k].name) <==> k in JsonPositions(listing))
  {
    if listing != [] {
      var n := |listing| - 1;
      JsonPositionsMeaning(listing[..n]);
      assert forall k :: 0 <= k < n ==> listing[..n][k] == listing[k];
    }
  }

  /** Files whose names do not end in `.json` contribute nothing. */
  lemma {:induction false} OnlyJsonFilesCount(listing: seq<DirEntry>, show: real -> string)
    ensures LoadedText(listing, show) == LoadedText(JsonFiles(listing), show)
  {
    if listing != [] {
      var d := listing[|listing| - 1];
      var before := listing[..|listing| - 1];
      OnlyJsonFilesCount(before, show);
      if IsJsonName(d.name) {
        var kept := JsonFiles(before) + [d];
        assert kept[..|kept| - 1] == JsonFiles(before);
      }
    }
  }

  /** `load_transcripts` raises exactly when some `.json` file is missing
      or holds bad JSON. */
  lemma {:induction false} LoadedRaisesIff(listing: seq<DirEntry>, show: real -> string)
    ensures LoadedText(listing, show).Raised? <==>
      exists k :: 0 <= k < |listing| && IsJsonName(listing[k].name) &&
        NormalizedText(listing[k].content, show).None?
  {
    if listing != [] {
      var n := |listing| - 1;
      var before := listing[..n];
      LoadedRaisesIff(before, show);
      if exists k :: 0 <= k < n && IsJsonName(before[k].name) && NormalizedText(before[k].content, show).None? {
        var k :| 0 <= k < n && IsJsonName(before[k].name) && NormalizedText(before[k].content, show).None?;
        assert listing[k] == before[k];
      }
      if exists k :: 0 <= k < |listing| && IsJsonName(listing[k].name) && NormalizedText(listing[k].content, show).None? {
        var k :| 0 <= k < |listing| && IsJsonName(listing[k].name) && NormalizedText(listing[k].content, show).None?;
        if k < n {
          assert before[k] == listing[k];
        }
      }
    }
  }
}
