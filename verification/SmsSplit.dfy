/** `split_sms_segments` and the counts of `build_sms_payload` as a whole. */
module SmsSplit {
  import opened Wrappers
  import opened Sms

  datatype Limits = Limits(maxBodyChars: int, maxSegments: int, disallowNul: bool)

  const DEFAULTS := Limits(4000, 10, true)

  datatype SmsError = ContainsNul | TooManySegments

  /** `body[:n]`; a negative bound counts from the end. */
  function Upto(body: string, n: int): string {
    if n >= |body| then body else if n >= 0 then body[..n] else if |body| + n > 0 then body[..|body| + n] else ""
  }

  /** A body over the character limit is cut and marked with an ellipsis. */
  function Cap(text: string, maxChars: int): string {
    if |text| > maxChars then Upto(text, maxChars) + [ELLIPSIS] else text
  }

  predicate Refused(text: string, lim: Limits) {
    lim.disallowNul && '\0' in text
  }

  function SplitOf(text: string, forceUnicode: bool, lim: Limits): Result<seq<string>, SmsError> {
    var body := Cap(text, lim.maxBodyChars);
    var info := InfoOf(body, forceUnicode);
    if Refused(text, lim) then Err(ContainsNul)
    else if info.segments > lim.maxSegments then Err(TooManySegments)
    else if info.segments <= 1 then Ok([body])
    else
      var pieces := Pieces(info.encoding, PerPart(info.encoding), body);
      if |pieces| > lim.maxSegments then Err(TooManySegments) else Ok(pieces)
  }

  /** `split_sms_segments`. */
  method SplitSegments(text: string, forceUnicode: bool, lim: Limits) returns (r: Result<seq<string>, SmsError>)
    ensures r == SplitOf(text, forceUnicode, lim)
  {
    hide Pieces, AllGsm7, Units;
    if lim.disallowNul && '\0' in text { return Err(ContainsNul); }
    var body := text;
    if |body| > lim.maxBodyChars {
      body := Upto(body, lim.maxBodyChars) + [ELLIPSIS];
    }
    var info := GetSegmentInfo(body, forceUnicode);
    if info.segments > lim.maxSegments { return Err(TooManySegments); }
    if info.segments <= 1 { return Ok([body]); }
    ConcatenatedInfo(body, forceUnicode);
    var segments := SplitGreedily(info.encoding, info.perSegment, body);
    if |segments| > lim.maxSegments { return Err(TooManySegments); }
    r := Ok(segments);
  }

  lemma ConcatenatedInfo(body: string, forceUnicode: bool)
    ensures var info := InfoOf(body, forceUnicode);
            && 1 <= info.segments
            && info.concatenated == (info.segments > 1) == (info.total > Single(info.encoding))
            && (info.concatenated ==>
                  && info.perSegment == PerPart(info.encoding)
                  && info.segments == CeilDiv(info.total, PerPart(info.encoding)))
  {
    hide Units, AllGsm7;
    var info := InfoOf(body, forceUnicode);
    CeilDivBounds(info.total, PerPart(info.encoding), 1);
  }

  /** A legal division: one part within the single-message limit, or parts within the
      limit of concatenated messages. */
  predicate Legal(parts: seq<string>, enc: Encoding, body: string) {
    || (parts == [body] && Fits(enc, Single(enc), body))
    || (parts != [] && Divides(enc, PerPart(enc), parts, body))
  }

  /** What is returned is legal, and no legal division has fewer parts. */
  lemma SplitIsMinimal(text: string, forceUnicode: bool, lim: Limits, parts: seq<string>)
    requires !Refused(text, lim)
    requires var body := Cap(text, lim.maxBodyChars); Legal(parts, EncodingOf(body, forceUnicode), body)
    ensures var r := SplitOf(text, forceUnicode, lim);
            var body := Cap(text, lim.maxBodyChars);
            if |parts| <= lim.maxSegments then
              r.Ok? && Legal(r.value, EncodingOf(body, forceUnicode), body) && |r.value| <= |parts|
            else r.Ok? ==> Legal(r.value, EncodingOf(body, forceUnicode), body)
  {
    hide Pieces, AllGsm7, Units, Reach, CeilDiv;
    var body := Cap(text, lim.maxBodyChars);
    var enc := EncodingOf(body, forceUnicode);
    var per := PerPart(enc);
    ConcatenatedInfo(body, forceUnicode);
    if InfoOf(body, forceUnicode).concatenated {
      GreedyIsOptimal(enc, per, body, parts);
      FormulaGap(enc, per, body);
      PiecesDivide(enc, per, body);
    }
  }

  /** A body is split if and only if some legal division has no more parts than allowed. */
  lemma SplitSucceedsExactly(text: string, forceUnicode: bool, lim: Limits)
    ensures var body := Cap(text, lim.maxBodyChars);
            SplitOf(text, forceUnicode, lim).Ok? <==>
              && !Refused(text, lim)
              && exists parts :: Legal(parts, EncodingOf(body, forceUnicode), body) && |parts| <= lim.maxSegments
  {
    hide Pieces, AllGsm7, Units, Reach, CeilDiv;
    var body := Cap(text, lim.maxBodyChars);
    var enc := EncodingOf(body, forceUnicode);
    var r := SplitOf(text, forceUnicode, lim);
    if r.Ok? {
      ConcatenatedInfo(body, forceUnicode);
      PiecesDivide(enc, PerPart(enc), body);
      FormulaGap(enc, PerPart(enc), body);
      assert Legal(r.value, enc, body) && |r.value| <= lim.maxSegments;
    }
    if parts :| !Refused(text, lim) && Legal(parts, enc, body) && |parts| <= lim.maxSegments {
      SplitIsMinimal(text, forceUnicode, lim, parts);
    }
  }

  // ----- over-long bodies -------------------------------------------------------------------

  /** A cut body is never GSM-7: the ellipsis that marks the cut is not in its tables. */
  lemma CutBodyIsUcs2(text: string, forceUnicode: bool, maxChars: int)
    requires |text| > maxChars
    ensures EncodingOf(Cap(text, maxChars), forceUnicode) == Ucs2
  {
    var body := Cap(text, maxChars);
    assert body[|body| - 1] == ELLIPSIS;
    assert !IsBasic(ELLIPSIS) && !IsExtended(ELLIPSIS);
  }

  /** So cutting does not help a body whose cut form cannot fit as UCS-2: with the
      default limits every body over 4000 characters is refused. */
  lemma CutBodyRefused(text: string, forceUnicode: bool, lim: Limits)
    requires |text| > lim.maxBodyChars >= 0
    requires lim.maxBodyChars + 1 > 70 && lim.maxBodyChars + 1 > 67 * lim.maxSegments
    ensures SplitOf(text, forceUnicode, lim).Err?
  {
    hide Pieces, AllGsm7, Units, Reach, CeilDiv;
    var body := Cap(text, lim.maxBodyChars);
    CutBodyIsUcs2(text, forceUnicode, lim.maxBodyChars);
    UnitsLength(Ucs2, body);
    ConcatenatedInfo(body, forceUnicode);
    if lim.maxSegments >= 0 {
      CeilDivBounds(Units(Ucs2, body), 67, lim.maxSegments);
    }
  }

  lemma DefaultsRefuseLongBodies(text: string, forceUnicode: bool)
    requires |text| > 4000
    ensures SplitOf(text, forceUnicode, DEFAULTS).Err?
  {
    CutBodyRefused(text, forceUnicode, DEFAULTS);
  }

  // ----- the counts of a payload --------------------------------------------------------------

  /** `segments` and `parts_count` of `build_sms_payload`. */
  function Counts(text: string, forceUnicode: bool, lim: Limits): Result<(nat, nat), SmsError> {
    match SplitOf(text, forceUnicode, lim)
    case Err(e) => Err(e)
    case Ok(parts) => Ok((InfoOf(text, forceUnicode).segments, |parts|))
  }

  /** For a body within the character limit the formula's count is at most the number
      of parts, and they are equal when every character has width 1. */
  lemma CountsOrdered(text: string, forceUnicode: bool, lim: Limits)
    requires |text| <= lim.maxBodyChars
    requires Counts(text, forceUnicode, lim).Ok?
    ensures var (segments, parts) := Counts(text, forceUnicode, lim).value;
            && segments <= parts
            && (AllWidth(EncodingOf(text, forceUnicode), 1, text) ==> segments == parts)
  {
    hide Pieces, AllGsm7, Units, Reach, CeilDiv;
    var enc := EncodingOf(text, forceUnicode);
    ConcatenatedInfo(text, forceUnicode);
    FormulaGap(enc, PerPart(enc), text);
    FormulaExtremes(enc, text);
  }

  // ----- which limits make cutting useless ------------------------------------------------------

  /** A body cut to the limit fits no number of parts allowed. */
  predicate IsCutHopeless(lim: Limits) {
    lim.maxSegments < 1 || (lim.maxBodyChars + 1 > 70 && lim.maxBodyChars + 1 > 67 * lim.maxSegments)
  }

  /** `n` letters. */
  function Letters(n: nat): string {
    seq(n, _ => 'a')
  }

  lemma LettersAnnounced(n: nat, forceUnicode: bool)
    requires n > 160
    ensures var enc := if forceUnicode then Ucs2 else Gsm7;
            InfoOf(Letters(n), forceUnicode) == SegmentInfo(enc, CeilDiv(n, PerPart(enc)), PerPart(enc), n, true)
  {
    hide Units, CeilDiv;
    var text := Letters(n);
    assert AllGsm7(text) && AllWidth(Gsm7, 1, text) && AllWidth(Ucs2, 1, text);
    UniformUnits(Gsm7, 1, text);
    UniformUnits(Ucs2, 1, text);
  }

  /** How many parts the letters make once they are cut. */
  lemma CutLettersSplit(n: nat, forceUnicode: bool, lim: Limits)
    requires n > lim.maxBodyChars >= 0 && !IsCutHopeless(lim)
    ensures var size := lim.maxBodyChars + 1;
            var r := SplitOf(Letters(n), forceUnicode, lim);
            r.Ok? && |r.value| == (if size <= 70 then 1 else CeilDiv(size, 67)) <= lim.maxSegments
  {
    hide Units, Pieces, CeilDiv, AllGsm7;
    var body := Cap(Letters(n), lim.maxBodyChars);
    CutBodyIsUcs2(Letters(n), forceUnicode, lim.maxBodyChars);
    assert AllWidth(Ucs2, 1, body);
    UniformUnits(Ucs2, 1, body);
    FormulaExtremes(Ucs2, body);
    ConcatenatedInfo(body, forceUnicode);
    CeilDivBounds(|body|, 67, lim.maxSegments);
  }

  /** Every over-long body is refused if and only if the limits make cutting hopeless. */
  lemma LongBodiesRefusedExactly(forceUnicode: bool, lim: Limits)
    requires lim.maxBodyChars >= 0
    ensures (forall text :: |text| > lim.maxBodyChars ==> SplitOf(text, forceUnicode, lim).Err?) <==> IsCutHopeless(lim)
  {
    hide SplitOf;
    if IsCutHopeless(lim) {
      forall text | |text| > lim.maxBodyChars ensures SplitOf(text, forceUnicode, lim).Err? {
        if lim.maxSegments < 1 {
          NoSegmentsAllowed(text, forceUnicode, lim);
        } else {
          CutBodyRefused(text, forceUnicode, lim);
        }
      }
    } else {
      CutLettersSplit(lim.maxBodyChars + 1, forceUnicode, lim);
      assert |Letters(lim.maxBodyChars + 1)| > lim.maxBodyChars;
    }
  }

  lemma NoSegmentsAllowed(text: string, forceUnicode: bool, lim: Limits)
    requires lim.maxSegments < 1
    ensures SplitOf(text, forceUnicode, lim).Err?
  {
    hide Units, Pieces, CeilDiv, AllGsm7;
    ConcatenatedInfo(Cap(text, lim.maxBodyChars), forceUnicode);
  }

  /** The announced count is at most the number of parts. */
  predicate IsOrdered(text: string, forceUnicode: bool, lim: Limits) {
    var c := Counts(text, forceUnicode, lim);
    c.Ok? ==> c.value.0 <= c.value.1
  }

  /** The announced count is at most the number of parts for every text that is accepted, if
      and only if no text is accepted cut. */
  lemma CountsOrderedExactly(forceUnicode: bool, lim: Limits)
    requires lim.maxBodyChars >= 0
    ensures (forall text :: IsOrdered(text, forceUnicode, lim)) <==> IsCutHopeless(lim)
  {
    hide SplitOf;
    if IsCutHopeless(lim) {
      LongBodiesRefusedExactly(forceUnicode, lim);
      forall text ensures IsOrdered(text, forceUnicode, lim) {
        if |text| <= lim.maxBodyChars && Counts(text, forceUnicode, lim).Ok? {
          CountsOrdered(text, forceUnicode, lim);
        }
      }
    } else {
      var n := 161 + 153 * lim.maxSegments + lim.maxBodyChars;
      LettersOvercounted(n, forceUnicode, lim);
      CeilDivBounds(n, if forceUnicode then 67 else 153, lim.maxSegments);
      assert !IsOrdered(Letters(n), forceUnicode, lim);
    }
  }

  /** The counts of a long run of letters that is accepted cut: of the whole, and of the
      cut. */
  lemma LettersOvercounted(n: nat, forceUnicode: bool, lim: Limits)
    requires n > 160 && n > lim.maxBodyChars >= 0 && !IsCutHopeless(lim)
    ensures var size := lim.maxBodyChars + 1;
            Counts(Letters(n), forceUnicode, lim)
            == Ok((CeilDiv(n, if forceUnicode then 67 else 153), if size <= 70 then 1 else CeilDiv(size, 67)))
    ensures (if lim.maxBodyChars + 1 <= 70 then 1 else CeilDiv(lim.maxBodyChars + 1, 67)) <= lim.maxSegments
  {
    hide SplitOf, InfoOf, CeilDiv;
    LettersAnnounced(n, forceUnicode);
    CutLettersSplit(n, forceUnicode, lim);
  }

  /** For example 400 letters cut to 10 characters are announced as 3 segments and sent as
      1 part. */
  lemma CountsOfCutBody()
    ensures Counts(Letters(400), false, Limits(10, 10, true)) == Ok((3, 1))
  {
    LettersOvercounted(400, false, Limits(10, 10, true));
  }
}
