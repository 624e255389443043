/**
 * Turning media into the inline-data part the remote model accepts
 * (utils/imageUtils.ts): parsing a `data:<mime>;base64,<data>` URL taken from a
 * canvas, and extracting the base64 segment of a FileReader data URL.
 */
module ImageUtils {

  import opened Outcomes
  import opened Strings

  /** The `inlineData` of a request part: base64 text and its MIME type. */
  datatype InlineData = InlineData(data: string, mimeType: string)

  /** A user-selected file: its name and its declared MIME type (`file.type`). */
  datatype File = File(name: string, mimeType: string)

  /** What a FileReader reports: `onload` with a string result, `onload` with some other result, or `onerror`. */
  datatype ReadOutcome = LoadedText(text: string) | LoadedOther | ReadFailed

  const Scheme := "data:"
  const Marker := ";base64,"

  const InvalidFormatMessage := "Invalid data URL format."
  const ParseFailedMessage := "Failed to parse data URL."
  const ReadFailedMessage := "Failed to read file."
  const NoBase64Message := "Failed to parse base64 data from file."

  /** No character of `s` is one that the regular-expression `.` refuses to match. */
  predicate NoLineTerminator(s: string)
  {
    forall k :: 0 <= k < |s| ==> !IsLineTerminator(s[k])
  }

  /** `s` splits as `data:` + `m` + `;base64,` + `d` with both groups matchable by `.*`. */
  ghost predicate IsSplit(s: string, m: string, d: string)
  {
    s == Scheme + m + Marker + d && NoLineTerminator(m) && NoLineTerminator(d)
  }

  /**
   * The two capture groups of `/^data:(.*);base64,(.*)$/` (no flags). The first
   * group is greedy, so the URL is cut at the LAST `;base64,`, which leaves the
   * second group free of that marker.
   */
  function MatchDataUrl(url: string): (r: Option<(string, string)>)
    ensures r.Some? ==> IsSplit(url, r.value.0, r.value.1)
    ensures r.Some? ==> !Contains(r.value.1, Marker)
  {
    if !StartsWith(url, Scheme) then None
    else
      var rest := url[|Scheme|..];
      if !NoLineTerminator(rest) then None
      else match LastIndexOf(rest, Marker)
        case None => None
        case Some(i) =>
          var m, d := rest[..i], rest[i + |Marker|..];
          CutAtMarker(url, rest, i);
          MarkerAbsentAfterLast(rest, i, d);
          Some((m, d))
  }

  /** Cutting the rest of a URL at a marker gives a split of the URL. */
  lemma CutAtMarker(url: string, rest: string, i: nat)
    requires StartsWith(url, Scheme) && rest == url[|Scheme|..] && NoLineTerminator(rest)
    requires OccursAt(rest, Marker, i)
    ensures IsSplit(url, rest[..i], rest[i + |Marker|..])
  {
    var m, d := rest[..i], rest[i + |Marker|..];
    assert rest == m + Marker + d;
    assert url == Scheme + rest;
    forall k | 0 <= k < |m| ensures m[k] == rest[k] { }
    forall k | 0 <= k < |d| ensures d[k] == rest[i + |Marker| + k] { }
  }

  /** The part after the last marker of `rest` holds no marker. */
  lemma MarkerAbsentAfterLast(rest: string, i: nat, d: string)
    requires i + |Marker| <= |rest| && d == rest[i + |Marker|..]
    requires forall j :: i < j ==> !OccursAt(rest, Marker, j)
    ensures !Contains(d, Marker)
  {
    if Contains(d, Marker) {
      var k :| 0 <= k <= |d| - |Marker| && OccursAt(d, Marker, k);
      assert rest[i + |Marker| + k..i + |Marker| + k + |Marker|] == d[k..k + |Marker|];
      assert OccursAt(rest, Marker, i + |Marker| + k);
    }
  }

  /**
   * Whenever the URL has the shape the pattern describes, the pattern matches,
   * and its first group is at least as long as any such `m` (greediness).
   */
  lemma MatchDataUrlComplete(url: string, m: string, d: string)
    requires IsSplit(url, m, d)
    ensures MatchDataUrl(url).Some?
    ensures |MatchDataUrl(url).value.0| >= |m|
  {
    var rest := m + Marker + d;
    assert url[..|Scheme|] == Scheme && url[|Scheme|..] == rest;
    assert rest[|m|..|m| + |Marker|] == Marker;
    assert OccursAt(rest, Marker, |m|);
    assert NoLineTerminator(rest) by {
      forall k | 0 <= k < |rest| ensures !IsLineTerminator(rest[k]) {
        if k < |m| { assert rest[k] == m[k]; }
        else if k >= |m| + |Marker| { assert rest[k] == d[k - |m| - |Marker|]; }
      }
    }
  }

  /** After the marker that follows `m`, a marker-free `d` leaves no later marker. */
  lemma NoLaterMarker(m: string, d: string, i: int)
    requires !Contains(d, Marker) && i > |m|
    ensures !OccursAt(m + Marker + d, Marker, i)
  {
    var rest := m + Marker + d;
    if OccursAt(rest, Marker, i) {
      assert rest[i..i + |Marker|][0] == rest[i] == ';';
      // a second marker cannot start inside the first one: only its first character is ';'
      if i >= |m| + |Marker| {
        var k := i - |m| - |Marker|;
        assert rest[i..i + |Marker|] == d[k..k + |Marker|];
        assert OccursAt(d, Marker, k);
      }
    }
  }

  /** When the data part holds no marker, the pattern's groups are exactly `m` and `d`. */
  lemma MatchDataUrlExact(url: string, m: string, d: string)
    requires IsSplit(url, m, d) && !Contains(d, Marker)
    ensures MatchDataUrl(url) == Some((m, d))
  {
    MatchDataUrlComplete(url, m, d);
    var r := MatchDataUrl(url).value;
    var rest := url[|Scheme|..];
    assert rest == m + Marker + d && rest == r.0 + Marker + r.1;
    assert rest[|r.0|..|r.0| + |Marker|] == Marker;
    if |r.0| > |m| {
      NoLaterMarker(m, d, |r.0|);
    }
    assert r.0 == rest[..|m|] == m;
    assert r.1 == rest[|m| + |Marker|..] == d;
  }

  /**
   * `dataUrlToGenerativePart`: a URL the pattern refuses is an "Invalid data URL
   * format." error; a match with an empty group is a "Failed to parse data URL."
   * error; otherwise the groups are the MIME type and the data.
   */
  function DataUrlToGenerativePart(url: string): (r: Result<InlineData, Thrown>)
    ensures r.Ok? ==> r.value.mimeType != "" && r.value.data != ""
    ensures r.Ok? ==> IsSplit(url, r.value.mimeType, r.value.data)
    ensures r.Err? ==> r.error.ErrorObject?
    ensures r == Err(NewError(InvalidFormatMessage)) <==> MatchDataUrl(url).None?
    ensures r == Err(NewError(ParseFailedMessage)) <==>
              MatchDataUrl(url).Some? && (MatchDataUrl(url).value.0 == "" || MatchDataUrl(url).value.1 == "")
    ensures r.Ok? ==> MatchDataUrl(url) == Some((r.value.mimeType, r.value.data))
  {
    match MatchDataUrl(url)
    case None => Err(NewError(InvalidFormatMessage))
    case Some((mimeType, data)) =>
      if mimeType == "" || data == "" then Err(NewError(ParseFailedMessage))
      else Ok(InlineData(data, mimeType))
  }

  /** Every well-formed data URL whose data holds no marker parses back to its own parts. */
  lemma DataUrlRoundTrip(mimeType: string, data: string)
    requires mimeType != "" && data != ""
    requires NoLineTerminator(mimeType) && NoLineTerminator(data)
    requires !Contains(data, Marker)
    ensures DataUrlToGenerativePart(Scheme + mimeType + Marker + data) == Ok(InlineData(data, mimeType))
  {
    MatchDataUrlExact(Scheme + mimeType + Marker + data, mimeType, data);
  }

  /** A URL of the right shape never fails with "Invalid data URL format.". */
  lemma DataUrlShapeIsNotInvalid(url: string, m: string, d: string)
    requires IsSplit(url, m, d)
    ensures DataUrlToGenerativePart(url) != Err(NewError(InvalidFormatMessage))
  {
    MatchDataUrlComplete(url, m, d);
  }

  /** A match whose MIME group is empty fails with "Failed to parse data URL.". */
  lemma DataUrlEmptyMime(data: string)
    requires NoLineTerminator(data) && !Contains(data, Marker)
    ensures DataUrlToGenerativePart(Scheme + Marker + data) == Err(NewError(ParseFailedMessage))
  {
    assert Scheme + Marker + data == Scheme + "" + Marker + data;
    MatchDataUrlExact(Scheme + Marker + data, "", data);
  }

  /** `data:image/jpeg;base64,QQ==` gives MIME type `image/jpeg` and data `QQ==`. */
  lemma DataUrlJpegExample()
    ensures DataUrlToGenerativePart("data:image/jpeg;base64,QQ==") == Ok(InlineData("QQ==", "image/jpeg"))
  {
    AbsentFirstChar("QQ==", Marker);
    assert "data:image/jpeg;base64,QQ==" == Scheme + "image/jpeg" + Marker + "QQ==";
    DataUrlRoundTrip("image/jpeg", "QQ==");
  }

  /** `not-a-data-url` is refused by the pattern. */
  lemma DataUrlNotAUrlExample()
    ensures DataUrlToGenerativePart("not-a-data-url") == Err(NewError(InvalidFormatMessage))
  {
    assert !StartsWith("not-a-data-url", Scheme) by {
      assert "not-a-data-url"[0] != Scheme[0];
    }
  }

  /** `data:;base64,QQ==` matches with an empty MIME group. */
  lemma DataUrlEmptyMimeExample()
    ensures DataUrlToGenerativePart("data:;base64,QQ==") == Err(NewError(ParseFailedMessage))
  {
    AbsentFirstChar("QQ==", Marker);
    assert "data:;base64,QQ==" == Scheme + Marker + "QQ==";
    DataUrlEmptyMime("QQ==");
  }

  /**
   * Because the first group is greedy, `data:a;base64,b;base64,` fails with
   * "Failed to parse data URL." even though a shorter first group would leave
   * non-empty data.
   */
  lemma DataUrlGreedyExample()
    ensures IsSplit(Scheme + "a" + Marker + "b" + Marker, "a", "b" + Marker)
    ensures DataUrlToGenerativePart(Scheme + "a" + Marker + "b" + Marker) == Err(NewError(ParseFailedMessage))
  {
    var url := Scheme + "a" + Marker + "b" + Marker;
    var m := "a" + Marker + "b";
    assert url == Scheme + m + Marker + "";
    MatchDataUrlExact(url, m, "");
  }

  /**
   * The string step of `fileToGenerativePart`: the data is the reader result's
   * segment between the first and the second comma, and the MIME type is the
   * file's declared type. A non-string result, a missing segment and an empty
   * segment are errors; a reader failure rejects with the reader's event,
   * which is not an `Error`.
   */
  function FileToGenerativePart(file: File, read: ReadOutcome): (r: Result<InlineData, Thrown>)
    ensures r.Ok? ==> r.value.mimeType == file.mimeType && r.value.data != "" && ',' !in r.value.data
    ensures r.Ok? ==> read.LoadedText?
    ensures read.LoadedOther? ==> r == Err(NewError(ReadFailedMessage))
    ensures read.ReadFailed? ==> r == Err(NonError)
    ensures read.LoadedText? && r.Err? ==> r == Err(NewError(NoBase64Message))
  {
    match read
    case ReadFailed => Err(NonError)
    case LoadedOther => Err(NewError(ReadFailedMessage))
    case LoadedText(text) =>
      var parts := Split(text, ',');
      if |parts| >= 2 && parts[1] != "" then Ok(InlineData(parts[1], file.mimeType))
      else Err(NewError(NoBase64Message))
  }

  /**
   * For a reader result `a,d` or `a,d,…` with comma-free `a` and `d`, the data is
   * `d` when it is non-empty, and the empty segment is an error otherwise.
   */
  lemma FileSegmentIsData(file: File, text: string, a: string, d: string, tail: string)
    requires text == a + [','] + d + tail
    requires ',' !in a && ',' !in d
    requires tail == [] || tail[0] == ','
    ensures FileToGenerativePart(file, LoadedText(text))
         == if d == "" then Err(NewError(NoBase64Message)) else Ok(InlineData(d, file.mimeType))
  {
    assert text == a + [','] + (d + tail);
    SplitAppend(a, d + tail, ',');
    SplitJoin([a], ',');
    if tail == [] {
      assert d + tail == d;
      SplitJoin([d], ',');
    } else {
      assert d + tail == d + [','] + tail[1..];
      SplitAppend(d, tail[1..], ',');
      SplitJoin([d], ',');
    }
    assert Split(text, ',')[1] == d;
  }

  /** A reader result without any comma has no base64 segment. */
  lemma FileWithoutComma(file: File, text: string)
    requires ',' !in text
    ensures FileToGenerativePart(file, LoadedText(text)) == Err(NewError(NoBase64Message))
  {
    SplitJoin([text], ',');
  }
}
