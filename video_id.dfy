/** Video-identifier extraction in `fetch_transcript`: the identifier is
    `url.split('v=')[-1].split('&')[0]`. */
module VideoId {
  import opened Optional
  import opened Text

  const Marker: string := "v="
  const Ampersand: string := "&"

  /** `id` is `s` cut just before its first `&`: a prefix of `s` with no
      `&` in it, followed either by the end of `s` or by an `&`. */
  predicate CutAtAmpersand(s: string, id: string)
  {
    |id| <= |s| && s[..|id|] == id && '&' !in id && (|id| == |s| || s[|id|] == '&')
  }

  /** The identifier the program sends to the transcript provider. */
  function VideoIdOf(url: string): (id: string)
    ensures '&' !in id
  {
    var afterMarker := Last(Split(url, Marker));
    var id := Split(afterMarker, Ampersand)[0];
    FirstPiece(afterMarker, Ampersand);
    ContainsChar(id, '&');
    id
  }

  /** The identifier is the last `v=`-piece of the URL cut at its first
      `&`. */
  lemma IdCutsLastPiece(url: string)
    ensures CutAtAmpersand(Last(Split(url, Marker)), VideoIdOf(url))
  {
    var afterMarker := Last(Split(url, Marker));
    FirstPiece(afterMarker, Ampersand);
    ContainsChar(VideoIdOf(url), '&');
  }

  /** What `split('v=')[-1]` yields: the text after the last `v=`, which is
      preceded by the marker and holds none itself. */
  lemma {:induction false} LastPieceFollowsMarker(url: string)
    requires Contains(url, Marker)
    ensures var rest := Last(Split(url, Marker));
      |rest| + 2 <= |url| && url[|url| - |rest| - 2..] == Marker + rest &&
      !Contains(rest, Marker)
    decreases |url|
  {
    var i := IndexOf(url, Marker).value;
    var tail := url[i + 2..];
    assert Split(url, Marker) == [url[..i]] + Split(tail, Marker);
    SplitPiecesFree(tail, Marker);
    var rest := Last(Split(tail, Marker));
    assert Last(Split(url, Marker)) == rest;
    assert url[i..i + 2] == Marker;
    if Contains(tail, Marker) {
      LastPieceFollowsMarker(tail);
      assert url[|url| - |rest| - 2..] == tail[|tail| - |rest| - 2..];
    } else {
      assert rest == tail;
      assert url[i..] == Marker + tail;
    }
  }

  /** The last piece is the text after the final marker: whatever `head`
      is, once it ends in `v=` and `tail` holds no `v=`, the last piece of
      `head + tail` is `tail`. */
  lemma {:induction false} LastPieceIsTail(head: string, tail: string)
    requires EndsWith(head, Marker)
    requires !Contains(tail, Marker)
    ensures Last(Split(head + tail, Marker)) == tail
    decreases |head|
  {
    var url := head + tail;
    FinalMarkerOccurs(head, tail);
    IndexOfLeftmost(url, Marker, |head| - 2);
    var i := IndexOf(url, Marker).value;
    var rest := url[i + 2..];
    LastAfterFirst(url, Marker, i);
    if i == |head| - 2 {
      assert rest == tail;
    } else {
      MarkersDoNotOverlap(url, i, |head| - 2);
      var head' := head[i + 2..];
      assert rest == head' + tail;
      assert EndsWith(head', Marker) by {
        assert head'[|head'| - 2..] == head[|head| - 2..];
      }
      LastPieceIsTail(head', tail);
    }
  }

  lemma FinalMarkerOccurs(head: string, tail: string)
    requires EndsWith(head, Marker)
    ensures OccursAt(head + tail, Marker, |head| - 2)
  {
    assert (head + tail)[|head| - 2..|head|] == head[|head| - 2..];
  }

  /** Two occurrences of `v=` cannot be one character apart. */
  lemma MarkersDoNotOverlap(url: string, i: nat, j: nat)
    requires OccursAt(url, Marker, i) && OccursAt(url, Marker, j) && i < j
    ensures i + 2 <= j
  {
    assert url[i..i + 2][1] == '=';
    assert url[j..j + 2][0] == 'v';
  }

  /** A URL without `v=` yields itself cut at its first `&`. */
  lemma WithoutMarker(url: string)
    requires !Contains(url, Marker)
    ensures CutAtAmpersand(url, VideoIdOf(url))
  {
    SplitSingle(url, Marker);
    IdCutsLastPiece(url);
  }

  /** A URL whose final `v=` is followed by `tail` yields `tail` cut at its
      first `&`. */
  lemma AfterFinalMarker(head: string, tail: string)
    requires EndsWith(head, Marker)
    requires !Contains(tail, Marker)
    ensures CutAtAmpersand(tail, VideoIdOf(head + tail))
  {
    LastPieceIsTail(head, tail);
    IdCutsLastPiece(head + tail);
  }

  /** The identifier never holds the marker `v=`. */
  lemma IdHasNoMarker(url: string)
    ensures !Contains(VideoIdOf(url), Marker)
  {
    var rest := Last(Split(url, Marker));
    var id := VideoIdOf(url);
    IdCutsLastPiece(url);
    SplitPiecesFree(url, Marker);
    if Contains(id, Marker) {
      OccursInPrefix(rest, Marker, |id|, IndexOf(id, Marker).value);
      ContainsAt(rest, Marker, IndexOf(id, Marker).value);
    }
  }

  lemma WithoutLetterV(s: string)
    requires 'v' !in s
    ensures !Contains(s, Marker)
  {
    if Contains(s, Marker) {
      MarkerStartsWithV(s, IndexOf(s, Marker).value);
      assert false;
    }
  }

  lemma MarkerStartsWithV(s: string, j: nat)
    requires OccursAt(s, Marker, j)
    ensures s[j] == 'v'
  {
    assert s[j..j + 2][0] == 'v';
  }

  /** The documented example: a watch URL with a trailing time parameter. */
  lemma WatchUrlExample()
    ensures VideoIdOf("https://youtube.com/watch?v=ABC123&t=5") == "ABC123"
  {
    var head, tail := "https://youtube.com/watch?v=", "ABC123&t=5";
    assert head + tail == "https://youtube.com/watch?v=ABC123&t=5";
    assert 'v' !in tail;
    WithoutLetterV(tail);
    AfterFinalMarker(head, tail);
    CutExample(tail, VideoIdOf(head + tail));
  }

  lemma CutExample(tail: string, id: string)
    requires tail == "ABC123&t=5" && CutAtAmpersand(tail, id)
    ensures id == "ABC123"
  {
    assert tail[6] == '&';
    assert forall k :: 0 <= k < 6 ==> tail[k] != '&';
  }
}
