/** `relevant_text_extractor`: without an API key no model is called and
    the answer is empty; otherwise the model's reply has its first 8 and
    last 4 characters cut off, is decoded as JSON, every item gets its
    `start` and `end` turned into numbers (every `s` deleted first), and
    the items are sorted by `start`. Any failure after the model call
    gives the empty list, never a partial one.

    The model, the JSON decoder and Python's `float` on a string are the
    parameters `model`, `decode` and `parse`; `None` stands for the call
    raising. */
module Extract {
  import opened Optional
  import opened Text
  import opened JsonValue

  /** An item after its `start` and `end` have been converted to numbers:
      the two numbers and the item's other fields. */
  datatype Frame = Frame(start: real, end: real, others: map<string, Json>)

  /** The dictionary the program holds for a frame. */
  function Fields(f: Frame): map<string, Json>
  {
    f.others["start" := JNum(f.start)]["end" := JNum(f.end)]
  }

  /** Python's `raw[8:-4]`: empty when `raw` is too short to have both
      ends removed. */
  function Unfence(raw: string): (body: string)
    ensures |raw| <= 12 ==> body == ""
    ensures |raw| >= 12 ==> |body| == |raw| - 12 && raw == raw[..8] + body + raw[|raw| - 4..]
  {
    if |raw| >= 12 then raw[8..|raw| - 4] else ""
  }

  /** Whatever eight characters come before and four after, `Unfence`
      gives back exactly what they enclose; in particular a reply fenced
      as a JSON code block. */
  lemma UnfenceWrapped(opening: string, body: string, closing: string)
    requires |opening| == 8 && |closing| == 4
    ensures Unfence(opening + body + closing) == body
  {
    var raw := opening + body + closing;
    assert raw[8..|raw| - 4] == body;
  }

  lemma UnfenceCodeBlock(body: string)
    ensures Unfence("```json\n" + body + "\n```") == body
  {
    UnfenceWrapped("```json\n", body, "\n```");
  }

  /** `float(v.replace('s', ''))`: only a string can be converted. */
  function ToSeconds(v: Json, parse: string -> Option<real>): (seconds: Option<real>)
    ensures seconds.Some? ==> v.JStr? && parse(DeleteAll(v.str, 's')).Some?
  {
    if v.JStr? then parse(DeleteAll(v.str, 's')) else None
  }

  /** A time with a trailing unit, such as `"12.5s"`, is read as its number. */
  lemma {:induction false} UnitSuffixDropped(number: string, parse: string -> Option<real>)
    requires 's' !in number
    ensures ToSeconds(JStr(number + "s"), parse) == parse(number)
  {
    DeleteAllAbsent(number, 's');
    DeleteAllAppend(number, "s", 's');
    assert DeleteAll("s", 's') == [];
    assert DeleteAll(number + "s", 's') == number;
  }

  /** The loop body at app.py:176-177 for one item: the item must be an
      object with `start` and `end` strings that convert; every other
      field is kept. */
  function ConvertFrame(item: Json, parse: string -> Option<real>): (r: Option<Frame>)
    ensures r.Some? <==>
      item.JObject? && "start" in item.fields && "end" in item.fields &&
      ToSeconds(item.fields["start"], parse).Some? && ToSeconds(item.fields["end"], parse).Some?
  {
    if !item.JObject? || "start" !in item.fields || "end" !in item.fields then None
    else
      match ToSeconds(item.fields["start"], parse)
      case None => None
      case Some(start) =>
        match ToSeconds(item.fields["end"], parse)
        case None => None
        case Some(end) => Some(Frame(start, end, item.fields - {"start", "end"}))
  }

  /** A converted item keeps its keys and every field other than `start`
      and `end`, and those two hold the converted numbers. */
  lemma ConvertFrameFields(item: Json, parse: string -> Option<real>)
    requires ConvertFrame(item, parse).Some?
    ensures var r := ConvertFrame(item, parse).value;
      r.start == ToSeconds(item.fields["start"], parse).value &&
      r.end == ToSeconds(item.fields["end"], parse).value &&
      Fields(r).Keys == item.fields.Keys &&
      forall k :: k in item.fields && k != "start" && k != "end" ==> Fields(r)[k] == item.fields[k]
  {
  }

  /** The whole loop at app.py:174-177: every item converted, or `None` as
      soon as one of them raises. */
  function ConvertAll(items: seq<Json>, parse: string -> Option<real>): (r: Option<seq<Frame>>)
    ensures r.Some? ==> |r.value| == |items|
  {
    if items == [] then Some([])
    else
      match ConvertAll(items[..|items| - 1], parse)
      case None => None
      case Some(frames) =>
        match ConvertFrame(items[|items| - 1], parse)
        case None => None
        case Some(f) => Some(frames + [f])
  }

  /** `ConvertAll` succeeds exactly when every item converts. */
  lemma {:induction false} ConvertAllSucceeds(items: seq<Json>, parse: string -> Option<real>)
    ensures ConvertAll(items, parse).Some? <==> forall k :: 0 <= k < |items| ==> ConvertFrame(items[k], parse).Some?
  {
    if items != [] {
      var m := |items| - 1;
      var before := items[..m];
      ConvertAllSucceeds(before, parse);
      assert forall k :: 0 <= k < m ==> before[k] == items[k];
      assert ConvertAll(items, parse).Some? <==> ConvertAll(before, parse).Some? && ConvertFrame(items[m], parse).Some?;
    }
  }

  /** A successful `ConvertAll` holds each item's conversion at the item's
      position. */
  lemma {:induction false} ConvertAllAt(items: seq<Json>, parse: string -> Option<real>, k: nat)
    requires ConvertAll(items, parse).Some? && k < |items|
    ensures ConvertFrame(items[k], parse) == Some(ConvertAll(items, parse).value[k])
  {
    var m := |items| - 1;
    var before := items[..m];
    var frames := ConvertAll(before, parse).value;
    assert ConvertAll(items, parse).value == frames + [ConvertFrame(items[m], parse).value];
    if k < m {
      ConvertAllAt(before, parse, k);
      assert before[k] == items[k];
    }
  }

  /** No partial results: one item that fails to convert empties the
      whole answer. */
  lemma OneBadItemFailsAll(items: seq<Json>, parse: string -> Option<real>, k: nat)
    requires k < |items| && ConvertFrame(items[k], parse).None?
    ensures ConvertAll(items, parse).None?
  {
    ConvertAllSucceeds(items, parse);
  }

  predicate SortedByStart(frames: seq<Frame>)
  {
    forall i, j :: 0 <= i < j < |frames| ==> frames[i].start <= frames[j].start
  }

  /** Puts `f` after every frame whose start is not later than its own. */
  function Insert(f: Frame, frames: seq<Frame>): (r: seq<Frame>)
    ensures |r| == |frames| + 1
  {
    if frames == [] then [f]
    else if f.start < frames[0].start then [f] + frames
    else [frames[0]] + Insert(f, frames[1..])
  }

  /** `sorted(frames, key=lambda x: x['start'])`. */
  function SortByStart(frames: seq<Frame>): (r: seq<Frame>)
    ensures |r| == |frames|
  {
    if frames == [] then []
    else Insert(frames[|frames| - 1], SortByStart(frames[..|frames| - 1]))
  }

  lemma {:induction false} InsertPermutes(f: Frame, frames: seq<Frame>)
    ensures multiset(Insert(f, frames)) == multiset(frames) + multiset{f}
  {
    if frames != [] && f.start >= frames[0].start {
      InsertPermutes(f, frames[1..]);
      assert frames == [frames[0]] + frames[1..];
    }
  }

  /** The result is a permutation of the input. */
  lemma {:induction false} SortByStartPermutes(frames: seq<Frame>)
    ensures multiset(SortByStart(frames)) == multiset(frames)
  {
    if frames != [] {
      var m := |frames| - 1;
      SortByStartPermutes(frames[..m]);
      InsertPermutes(frames[m], SortByStart(frames[..m]));
      assert frames == frames[..m] + [frames[m]];
    }
  }

  /** Every frame starts at `lo` or later. */
  predicate AllFrom(frames: seq<Frame>, lo: real)
  {
    forall k :: 0 <= k < |frames| ==> lo <= frames[k].start
  }

  lemma SortedTail(frames: seq<Frame>)
    requires SortedByStart(frames) && frames != []
    ensures SortedByStart(frames[1..]) && AllFrom(frames[1..], frames[0].start)
  {
    var rest := frames[1..];
    forall i, j | 0 <= i < j < |rest| ensures rest[i].start <= rest[j].start {
      assert rest[i] == frames[i + 1] && rest[j] == frames[j + 1];
    }
    forall k | 0 <= k < |rest| ensures frames[0].start <= rest[k].start {
      assert rest[k] == frames[k + 1];
    }
  }

  lemma ConsSorted(a: Frame, tail: seq<Frame>)
    requires SortedByStart(tail) && AllFrom(tail, a.start)
    ensures SortedByStart([a] + tail)
  {
    var r := [a] + tail;
    forall i, j | 0 <= i < j < |r| ensures r[i].start <= r[j].start {
      assert r[j] == tail[j - 1];
      if i > 0 {
        assert r[i] == tail[i - 1];
      }
    }
  }

  lemma {:induction false} InsertAllFrom(f: Frame, frames: seq<Frame>, lo: real)
    requires AllFrom(frames, lo) && lo <= f.start
    ensures AllFrom(Insert(f, frames), lo)
  {
    if frames != [] && f.start >= frames[0].start {
      var rest := frames[1..];
      assert AllFrom(rest, lo) by {
        forall k | 0 <= k < |rest| ensures lo <= rest[k].start {
          assert rest[k] == frames[k + 1];
        }
      }
      InsertAllFrom(f, rest, lo);
      var r := [frames[0]] + Insert(f, rest);
      forall k | 0 <= k < |r| ensures lo <= r[k].start {
        if k > 0 {
          assert r[k] == Insert(f, rest)[k - 1];
        }
      }
    }
  }

  lemma {:induction false} InsertSorted(f: Frame, frames: seq<Frame>)
    requires SortedByStart(frames)
    ensures SortedByStart(Insert(f, frames))
  {
    if frames == [] {
    } else if f.start < frames[0].start {
      SortedTail(frames);
      ConsSorted(f, frames);
    } else {
      var rest := frames[1..];
      SortedTail(frames);
      InsertSorted(f, rest);
      InsertAllFrom(f, rest, frames[0].start);
      ConsSorted(frames[0], Insert(f, rest));
    }
  }

  /** The result is in ascending order of `start`. */
  lemma {:induction false} SortByStartSorted(frames: seq<Frame>)
    ensures SortedByStart(SortByStart(frames))
  {
    if frames != [] {
      SortByStartSorted(frames[..|frames| - 1]);
      InsertSorted(frames[|frames| - 1], SortByStart(frames[..|frames| - 1]));
    }
  }

  /** `[f]` if `f` starts at `t`, otherwise nothing. */
  function Only(f: Frame, t: real): seq<Frame>
  {
    if f.start == t then [f] else []
  }

  /** The frames whose start is `t`, in order. */
  function WithStart(frames: seq<Frame>, t: real): seq<Frame>
  {
    if frames == [] then [] else Only(frames[0], t) + WithStart(frames[1..], t)
  }

  lemma {:induction false} WithStartAppend(a: seq<Frame>, b: seq<Frame>, t: real)
    ensures WithStart(a + b, t) == WithStart(a, t) + WithStart(b, t)
  {
    if a == [] {
      assert a + b == b;
    } else {
      assert (a + b)[1..] == a[1..] + b;
      WithStartAppend(a[1..], b, t);
    }
  }

  lemma {:induction false} NoneWithEarlierStart(frames: seq<Frame>, t: real)
    requires SortedByStart(frames) && frames != [] && t < frames[0].start
    ensures WithStart(frames, t) == []
  {
    var rest := frames[1..];
    if rest != [] {
      SortedTail(frames);
      assert rest[0] == frames[1];
      NoneWithEarlierStart(rest, t);
    }
  }

  /** The frames of `[a] + rest` that start at `t`. */
  lemma WithStartCons(a: Frame, rest: seq<Frame>, t: real)
    ensures WithStart([a] + rest, t) == Only(a, t) + WithStart(rest, t)
  {
    assert ([a] + rest)[1..] == rest;
  }

  /** Inserting `f` puts it after the frames with the same start. */
  lemma {:induction false} InsertStable(f: Frame, frames: seq<Frame>, t: real)
    requires SortedByStart(frames)
    ensures WithStart(Insert(f, frames), t) == WithStart(frames, t) + Only(f, t)
  {
    if frames == [] {
      WithStartCons(f, [], t);
    } else if f.start < frames[0].start {
      WithStartCons(f, frames, t);
      if f.start == t {
        NoneWithEarlierStart(frames, t);
      }
    } else {
      var rest := frames[1..];
      SortedTail(frames);
      InsertStable(f, rest, t);
      InsertPastHead(f, frames, t);
    }
  }

  lemma InsertPastHead(f: Frame, frames: seq<Frame>, t: real)
    requires frames != [] && frames[0].start <= f.start
    requires WithStart(Insert(f, frames[1..]), t) == WithStart(frames[1..], t) + Only(f, t)
    ensures WithStart(Insert(f, frames), t) == WithStart(frames, t) + Only(f, t)
  {
    var rest := frames[1..];
    WithStartCons(frames[0], Insert(f, rest), t);
    ConcatAssoc(Only(frames[0], t), WithStart(rest, t), Only(f, t));
  }

  /** `sorted` is stable: frames with equal starts keep their input order. */
  lemma {:induction false} SortByStartStable(frames: seq<Frame>, t: real)
    ensures WithStart(SortByStart(frames), t) == WithStart(frames, t)
  {
    if frames != [] {
      var m := |frames| - 1;
      var before := frames[..m];
      var last := frames[m];
      SortByStartStable(before, t);
      SortByStartSorted(before);
      InsertStable(last, SortByStart(before), t);
      assert frames == before + [last];
      WithStartAppend(before, [last], t);
      WithStartCons(last, [], t);
    }
  }

  /** The value the `try` block at app.py:170-184 returns for a reply. */
  function PostProcessed(raw: string, decode: string -> Option<Json>, parse: string -> Option<real>): seq<Frame>
  {
    match decode(Unfence(raw))
    case Some(JList(items)) =>
      (match ConvertAll(items, parse)
       case Some(frames) => SortByStart(frames)
       case None => [])
    case _ => []
  }

  /** What the post-processing promises: the answer is sorted by start and
      is either empty, or a permutation of the converted items with equal
      starts in reply order; it is empty whenever the reply is not a JSON
      list or some item fails to convert. */
  lemma PostProcessedMeaning(raw: string, decode: string -> Option<Json>, parse: string -> Option<real>)
    ensures SortedByStart(PostProcessed(raw, decode, parse))
    ensures (decode(Unfence(raw)).Some? && decode(Unfence(raw)).value.JList? &&
             ConvertAll(decode(Unfence(raw)).value.items, parse).Some?) ||
            PostProcessed(raw, decode, parse) == []
    ensures decode(Unfence(raw)).Some? && decode(Unfence(raw)).value.JList? &&
            ConvertAll(decode(Unfence(raw)).value.items, parse).Some? ==>
      var frames := ConvertAll(decode(Unfence(raw)).value.items, parse).value;
      multiset(PostProcessed(raw, decode, parse)) == multiset(frames) &&
      forall t :: WithStart(PostProcessed(raw, decode, parse), t) == WithStart(frames, t)
  {
    var decoded := decode(Unfence(raw));
    if decoded.Some? && decoded.value.JList? && ConvertAll(decoded.value.items, parse).Some? {
      var frames := ConvertAll(decoded.value.items, parse).value;
      SortByStartSorted(frames);
      SortByStartPermutes(frames);
      forall t ensures WithStart(SortByStart(frames), t) == WithStart(frames, t) {
        SortByStartStable(frames, t);
      }
    }
  }

  /** The loop body at app.py:175-177 as it runs: `start` is converted,
      then `end`; a failure at either step raises. */
  method ConvertItem(item: Json, parse: string -> Option<real>) returns (converted: Option<Frame>)
    ensures converted == ConvertFrame(item, parse)
  {
    if !item.JObject? || "start" !in item.fields || "end" !in item.fields {
      return None;
    }
    var start := ToSeconds(item.fields["start"], parse);
    if start.None? {
      return None;
    }
    var end := ToSeconds(item.fields["end"], parse);
    if end.None? {
      return None;
    }
    converted := Some(Frame(start.value, end.value, item.fields - {"start", "end"}));
  }

  /** The loop at app.py:174-177 as it runs: items are converted one after
      another and the first failure ends it. */
  method ConvertItems(items: seq<Json>, parse: string -> Option<real>) returns (frames: Option<seq<Frame>>)
    ensures frames == ConvertAll(items, parse)
  {
    var done: seq<Frame> := [];
    for i := 0 to |items|
      invariant ConvertAll(items[..i], parse) == Some(done)
    {
      assert items[..i + 1][..i] == items[..i];
      var converted := ConvertItem(items[i], parse);
      if converted.None? {
        OneBadItemFailsAll(items, parse, i);
        return None;
      }
      done := done + [converted.value];
    }
    assert items[..|items|] == items;
    frames := Some(done);
  }

  /** The post-processing as the source runs it: decode, convert, sort. */
  method PostProcess(raw: string, decode: string -> Option<Json>, parse: string -> Option<real>)
    returns (sortedFrames: seq<Frame>)
    ensures sortedFrames == PostProcessed(raw, decode, parse)
  {
    var decoded := decode(Unfence(raw));
    if decoded.None? || !decoded.value.JList? {
      return [];
    }
    var frames := ConvertItems(decoded.value.items, parse);
    if frames.None? {
      return [];
    }
    sortedFrames := SortByStart(frames.value);
  }

  /** The outcome of `relevant_text_extractor`: the list it returns, or the
      model call raising (it is outside the `try`). */
  datatype Extraction = Frames(items: seq<Frame>) | ModelRaised

  /** The value `relevant_text_extractor` gives for an API key, a question
      and the collected transcripts. */
  function RelevantText(apiKey: string, question: string, transcript: string,
                        model: (string, string) -> Option<string>,
                        decode: string -> Option<Json>, parse: string -> Option<real>): (r: Extraction)
    ensures apiKey == [] ==> r == Frames([])
    ensures apiKey != [] ==> (r.ModelRaised? <==> model(question, transcript).None?)
  {
    if apiKey == [] then Frames([])
    else
      match model(question, transcript)
      case None => ModelRaised
      case Some(reply) => Frames(PostProcessed(reply, decode, parse))
  }

  /** Without a key the model is never consulted: any two models give the
      same, empty answer. */
  lemma NoKeyNoModelCall(question: string, transcript: string,
                         model1: (string, string) -> Option<string>, model2: (string, string) -> Option<string>,
                         decode: string -> Option<Json>, parse: string -> Option<real>)
    ensures RelevantText([], question, transcript, model1, decode, parse) ==
            RelevantText([], question, transcript, model2, decode, parse) == Frames([])
  {
  }

  /** `relevant_text_extractor` (app.py:116-184). */
  method RelevantTextExtractor(apiKey: string, question: string, transcript: string,
                               model: (string, string) -> Option<string>,
                               decode: string -> Option<Json>, parse: string -> Option<real>)
    returns (r: Extraction)
    ensures r == RelevantText(apiKey, question, transcript, model, decode, parse)
    ensures r.Frames? ==> SortedByStart(r.items)
  {
    if apiKey == [] {
      return Frames([]);
    }
    var reply := model(question, transcript);
    if reply.None? {
      return ModelRaised;
    }
    var frames := PostProcess(reply.value, decode, parse);
    PostProcessedMeaning(reply.value, decode, parse);
    r := Frames(frames);
  }
}
