/** SMS encoding choice, the segment-count formula and the segment splitter. */
module Sms {
  import opened Wrappers

  // ----- encodings ----------------------------------------------------------------------

  datatype Encoding = Gsm7 | Ucs2

  const ELLIPSIS: char := '\U{2026}'

  /** The GSM 03.38 basic set the module lists. */
  predicate IsBasic(c: char) {
    || ' ' <= c <= 'Z' || 'a' <= c <= 'z' || c == '_' || c == '\n' || c == '\r'
    || c == '£' || c == '¥' || c == 'è' || c == 'é' || c == 'ù' || c == 'ì' || c == 'ò'
    || c == 'Ç' || c == 'Ø' || c == 'ø' || c == 'Å' || c == 'å' || c == 'Δ' || c == 'Φ'
    || c == 'Γ' || c == 'Λ' || c == 'Ω' || c == 'Π' || c == 'Ψ' || c == 'Σ' || c == 'Θ'
    || c == 'Ξ' || c == 'Æ' || c == 'æ' || c == 'ß' || c == 'É' || c == '¤' || c == '¡'
    || c == 'Ä' || c == 'Ö' || c == 'Ñ' || c == 'Ü' || c == '§' || c == '¿' || c == 'ä'
    || c == 'ö' || c == 'ñ' || c == 'ü' || c == 'à'
  }

  /** Its extension table: an escape and a character, two septets. */
  predicate IsExtended(c: char) {
    c == '^' || c == '{' || c == '}' || c == '\\' || c == '[' || c == '~' || c == ']' || c == '|' || c == '€'
  }

  function Width(enc: Encoding, c: char): (w: nat)
    ensures 1 <= w <= 2
  {
    match enc
    case Gsm7 => if IsBasic(c) then 1 else 2
    case Ucs2 => if c as int > 0xFFFF then 2 else 1
  }

  function Units(enc: Encoding, s: string): nat {
    if s == "" then 0 else Width(enc, s[0]) + Units(enc, s[1..])
  }

  predicate AllGsm7(s: string) {
    forall i :: 0 <= i < |s| ==> IsBasic(s[i]) || IsExtended(s[i])
  }

  lemma {:induction false} UnitsConcat(enc: Encoding, a: string, b: string)
    ensures Units(enc, a + b) == Units(enc, a) + Units(enc, b)
  {
    if a == "" {
      assert a + b == b;
    } else {
      assert (a + b)[1..] == a[1..] + b;
      UnitsConcat(enc, a[1..], b);
    }
  }

  lemma UnitsSnoc(enc: Encoding, a: string, c: char)
    ensures Units(enc, a + [c]) == Units(enc, a) + Width(enc, c)
  {
    UnitsConcat(enc, a, [c]);
    assert [c][1..] == "";
  }

  lemma {:induction false} UnitsLength(enc: Encoding, s: string)
    ensures |s| <= Units(enc, s) <= 2 * |s|
  {
    if s != "" {
      UnitsLength(enc, s[1..]);
    }
  }

  /** `gsm7_septet_len`: the septets, or None for text outside GSM-7. */
  method Gsm7SeptetLen(text: string) returns (r: Option<nat>)
    ensures r == if AllGsm7(text) then Some(Units(Gsm7, text)) else None
  {
    hide IsBasic, IsExtended, Units;
    UnitsLength(Gsm7, "");
    var total := 0;
    for i := 0 to |text|
      invariant AllGsm7(text[..i])
      invariant total == Units(Gsm7, text[..i])
    {
      UnitsSnoc(Gsm7, text[..i], text[i]);
      assert text[..i + 1] == text[..i] + [text[i]];
      if IsBasic(text[i]) {
        total := total + 1;
      } else if IsExtended(text[i]) {
        total := total + 2;
      } else {
        return None;
      }
    }
    assert text[..|text|] == text;
    r := Some(total);
  }

  /** `ucs2_units_len`: the UTF-16 code units. */
  method Ucs2UnitsLen(text: string) returns (total: nat)
    ensures total == Units(Ucs2, text)
  {
    total := 0;
    for i := 0 to |text|
      invariant total == Units(Ucs2, text[..i])
    {
      UnitsSnoc(Ucs2, text[..i], text[i]);
      assert text[..i + 1] == text[..i] + [text[i]];
      total := total + if text[i] as int > 0xFFFF then 2 else 1;
    }
    assert text[..|text|] == text;
  }

  function EncodingOf(text: string, forceUnicode: bool): Encoding {
    if forceUnicode || !AllGsm7(text) then Ucs2 else Gsm7
  }

  function Single(enc: Encoding): nat {
    if enc == Gsm7 then 160 else 70
  }

  function PerPart(enc: Encoding): (per: nat)
    ensures per >= 2 && per < Single(enc)
  {
    if enc == Gsm7 then 153 else 67
  }

  datatype SegmentInfo = SegmentInfo(encoding: Encoding, segments: nat, perSegment: nat, total: nat, concatenated: bool)

  function CeilDiv(n: nat, d: nat): nat
    requires d > 0
  {
    (n + d - 1) / d
  }

  /** `sms_segment_info`. */
  method GetSegmentInfo(text: string, forceUnicode: bool) returns (info: SegmentInfo)
    ensures info == InfoOf(text, forceUnicode)
  {
    var septets := Gsm7SeptetLen(text);
    if !forceUnicode && septets.Some? {
      if septets.value <= 160 { return SegmentInfo(Gsm7, 1, 160, septets.value, false); }
      return SegmentInfo(Gsm7, CeilDiv(septets.value, 153), 153, septets.value, true);
    }
    var units := Ucs2UnitsLen(text);
    if units <= 70 { return SegmentInfo(Ucs2, 1, 70, units, false); }
    return SegmentInfo(Ucs2, CeilDiv(units, 67), 67, units, true);
  }

  function InfoOf(text: string, forceUnicode: bool): SegmentInfo {
    var enc := EncodingOf(text, forceUnicode);
    var units := Units(enc, text);
    if units <= Single(enc) then SegmentInfo(enc, 1, Single(enc), units, false)
    else SegmentInfo(enc, CeilDiv(units, PerPart(enc)), PerPart(enc), units, true)
  }

  // ----- greedy pieces ------------------------------------------------------------------

  function Join(parts: seq<string>): string {
    if parts == [] then "" else parts[0] + Join(parts[1..])
  }

  lemma {:induction false} JoinConcat(a: seq<string>, b: seq<string>)
    ensures Join(a + b) == Join(a) + Join(b)
  {
    if a == [] {
      assert a + b == b;
    } else {
      assert (a + b)[1..] == a[1..] + b;
      JoinConcat(a[1..], b);
    }
  }

  predicate Fits(enc: Encoding, per: nat, s: string) {
    Units(enc, s) <= per
  }

  /** The length of the longest prefix of `s` that fits. */
  function Reach(enc: Encoding, per: nat, s: string): (k: nat)
    ensures k <= |s|
  {
    if s == "" || Width(enc, s[0]) > per then 0
    else 1 + Reach(enc, per - Width(enc, s[0]), s[1..])
  }

  /** Exactly the prefixes up to `Reach` fit. */
  lemma {:induction false} ReachIsLongest(enc: Encoding, per: nat, s: string, k: nat)
    requires k <= |s|
    ensures Fits(enc, per, s[..k]) <==> k <= Reach(enc, per, s)
  {
    if k > 0 {
      assert s[..k][1..] == s[1..][..k - 1];
      if Width(enc, s[0]) <= per {
        ReachIsLongest(enc, per - Width(enc, s[0]), s[1..], k - 1);
      }
    }
  }

  lemma ReachPositive(enc: Encoding, per: nat, s: string)
    requires per >= 2 && s != ""
    ensures 1 <= Reach(enc, per, s)
  {
  }

  /** The greedy division: the longest piece that fits, then the rest. */
  function Pieces(enc: Encoding, per: nat, s: string): seq<string>
    requires per >= 2
    decreases |s|
  {
    if s == "" then []
    else
      ReachPositive(enc, per, s);
      var k := Reach(enc, per, s);
      [s[..k]] + Pieces(enc, per, s[k..])
  }

  /** A division of `s` into consecutive pieces that fit. */
  predicate Divides(enc: Encoding, per: nat, parts: seq<string>, s: string) {
    Join(parts) == s && forall i :: 0 <= i < |parts| ==> Fits(enc, per, parts[i])
  }

  /** The greedy pieces are a division, none of them empty. */
  lemma {:induction false} PiecesDivide(enc: Encoding, per: nat, s: string)
    requires per >= 2
    ensures Divides(enc, per, Pieces(enc, per, s), s)
    ensures forall i :: 0 <= i < |Pieces(enc, per, s)| ==> Pieces(enc, per, s)[i] != ""
    decreases |s|
  {
    hide Reach, Units;
    if s != "" {
      ReachPositive(enc, per, s);
      var k := Reach(enc, per, s);
      ReachIsLongest(enc, per, s, k);
      PiecesDivide(enc, per, s[k..]);
      assert Pieces(enc, per, s)[1..] == Pieces(enc, per, s[k..]);
      assert s == s[..k] + s[k..];
    }
  }

  /** Dropping characters from the front never needs more pieces. */
  lemma {:induction false} SuffixNeedsNoMore(enc: Encoding, per: nat, s: string, j: nat)
    requires per >= 2 && j <= |s|
    ensures |Pieces(enc, per, s[j..])| <= |Pieces(enc, per, s)|
    decreases |s|
  {
    hide Units, Reach;
    var t := s[j..];
    if t != "" {
      ReachPositive(enc, per, s);
      var k := Reach(enc, per, s);
      if j >= k {
        assert s[k..][j - k..] == t;
        SuffixNeedsNoMore(enc, per, s[k..], j - k);
      } else {
        var p := Reach(enc, per, t);
        ReachIsLongest(enc, per, s, k);
        assert s[..k] == s[..j] + t[..k - j];
        UnitsConcat(enc, s[..j], t[..k - j]);
        ReachIsLongest(enc, per, t, k - j);
        assert s[k..][p - (k - j)..] == t[p..];
        SuffixNeedsNoMore(enc, per, s[k..], p - (k - j));
      }
    }
  }

  /** Greedy is optimal: no division into pieces that fit has fewer pieces. */
  lemma {:induction false} GreedyIsOptimal(enc: Encoding, per: nat, s: string, parts: seq<string>)
    requires per >= 2 && Divides(enc, per, parts, s)
    ensures |Pieces(enc, per, s)| <= |parts|
    decreases |parts|
  {
    hide Units, Reach;
    if s != "" {
      var first := parts[0];
      var k := Reach(enc, per, s);
      assert s[..|first|] == first && s[|first|..] == Join(parts[1..]);
      ReachIsLongest(enc, per, s, |first|);
      ReachPositive(enc, per, s);
      GreedyIsOptimal(enc, per, s[|first|..], parts[1..]);
      assert s[|first|..][k - |first|..] == s[k..];
      SuffixNeedsNoMore(enc, per, s[|first|..], k - |first|);
    }
  }

  /** The loop of `split_sms_segments` for one encoding: it computes the greedy pieces. */
  method SplitGreedily(enc: Encoding, per: nat, body: string) returns (segments: seq<string>)
    requires per >= 2
    ensures segments == Pieces(enc, per, body)
  {
    hide Pieces, Reach, Units, Width;
    UnitsLength(enc, "");
    segments := [];
    var cur := "";
    var curUnits := 0;
    assert "" + body[0..] == body;
    for i := 0 to |body|
      invariant curUnits == Units(enc, cur) && Fits(enc, per, cur)
      invariant i > 0 ==> cur != ""
      invariant Pieces(enc, per, body) == segments + Pieces(enc, per, cur + body[i..])
    {
      var ch := body[i];
      var add := Width(enc, ch);
      NextChar(body, i, cur);
      UnitsSnoc(enc, cur, ch);
      if curUnits + add > per && cur != "" {
        CutHere(enc, per, cur, [ch] + body[i + 1..]);
        UnitsSnoc(enc, "", ch);
        assert "" + [ch] == [ch];
        assert segments + ([cur] + Pieces(enc, per, [ch] + body[i + 1..]))
            == (segments + [cur]) + Pieces(enc, per, [ch] + body[i + 1..]);
        segments := segments + [cur];
        cur := [ch];
        curUnits := add;
      } else {
        cur := cur + [ch];
        curUnits := curUnits + add;
      }
    }
    assert cur + body[|body|..] == cur;
    LastPiece(enc, per, cur);
    if cur != "" {
      segments := segments + [cur];
    }
  }

  lemma NextChar(body: string, i: nat, cur: string)
    requires i < |body|
    ensures cur + body[i..] == cur + ([body[i]] + body[i + 1..]) == (cur + [body[i]]) + body[i + 1..]
  {
  }

  lemma LastPiece(enc: Encoding, per: nat, cur: string)
    requires per >= 2 && Fits(enc, per, cur)
    ensures Pieces(enc, per, cur) == if cur == "" then [] else [cur]
  {
    if cur != "" {
      assert cur[..|cur|] == cur && cur[|cur|..] == "";
      ReachIsLongest(enc, per, cur, |cur|);
    }
  }

  /** A piece that fits, and no longer fits with the next character, is the first piece. */
  lemma CutHere(enc: Encoding, per: nat, cur: string, rest: string)
    requires per >= 2 && cur != "" && rest != ""
    requires Fits(enc, per, cur) && !Fits(enc, per, cur + [rest[0]])
    ensures Pieces(enc, per, cur + rest) == [cur] + Pieces(enc, per, rest)
  {
    var s := cur + rest;
    assert s[..|cur|] == cur && s[..|cur| + 1] == cur + [rest[0]] && s[|cur|..] == rest;
    ReachIsLongest(enc, per, s, |cur|);
    ReachIsLongest(enc, per, s, |cur| + 1);
  }

  // ----- the formula against the pieces ---------------------------------------------------

  lemma {:induction false} MulMono(a: nat, b: nat, k: nat)
    requires a <= b
    ensures a * k <= b * k
  {
    if k > 0 {
      MulMono(a, b, k - 1);
      assert a * k == a * (k - 1) + a && b * k == b * (k - 1) + b;
    }
  }

  /** `CeilDiv(n, d)` is the least k with n <= k * d. */
  lemma CeilDivBounds(n: nat, d: nat, k: nat)
    requires d > 0
    ensures n <= k * d <==> CeilDiv(n, d) <= k
  {
    var q := CeilDiv(n, d);
    assert q * d >= n && (q == 0 || (q - 1) * d < n) by {
      assert n + d - 1 == d * q + (n + d - 1) % d;
      assert (q - 1) * d == d * q - d && q * d == d * q;
    }
    if q <= k {
      MulMono(q, k, d);
    } else {
      MulMono(k, q - 1, d);
    }
  }

  lemma MulStep(n: int, k: int)
    ensures n * k == (n - 1) * k + k
  {
  }

  /** A piece cut before the end of the text holds `per` units or one less. */
  lemma CutPieceUnits(enc: Encoding, per: nat, s: string, k: nat)
    requires per >= 2 && s != "" && k == Reach(enc, per, s)
    ensures Units(enc, s) == Units(enc, s[..k]) + Units(enc, s[k..])
    ensures 1 <= Units(enc, s[..k]) <= per
    ensures k < |s| ==> Units(enc, s[..k]) >= per - 1
  {
    ReachPositive(enc, per, s);
    ReachIsLongest(enc, per, s, k);
    assert s == s[..k] + s[k..];
    UnitsConcat(enc, s[..k], s[k..]);
    UnitsLength(enc, s[..k]);
    if k < |s| {
      ReachIsLongest(enc, per, s, k + 1);
      assert s[..k + 1] == s[..k] + [s[k]];
      UnitsSnoc(enc, s[..k], s[k]);
    }
  }

  /** Every piece but the last holds `per` units or one less, the last at most `per`. */
  lemma {:induction false} EachPieceUnits(enc: Encoding, per: nat, s: string, i: nat)
    requires per >= 2 && i < |Pieces(enc, per, s)|
    ensures Units(enc, Pieces(enc, per, s)[i]) <= per
    ensures i + 1 < |Pieces(enc, per, s)| ==> per - 1 <= Units(enc, Pieces(enc, per, s)[i])
    decreases |s|
  {
    hide Reach, Units;
    ReachPositive(enc, per, s);
    var k := Reach(enc, per, s);
    CutPieceUnits(enc, per, s, k);
    if i > 0 {
      EachPieceUnits(enc, per, s[k..], i - 1);
    }
  }

  /** So their number bounds the units from both sides. */
  lemma {:induction false} PieceUnits(enc: Encoding, per: nat, s: string)
    requires per >= 2
    ensures var n := |Pieces(enc, per, s)|;
            && Units(enc, s) <= n * per
            && (n > 0 ==> (n - 1) * (per - 1) < Units(enc, s))
    decreases |s|
  {
    hide Reach, Units;
    if s == "" {
      UnitsLength(enc, s);
    } else {
      ReachPositive(enc, per, s);
      var k := Reach(enc, per, s);
      CutPieceUnits(enc, per, s, k);
      PieceUnits(enc, per, s[k..]);
      var n := |Pieces(enc, per, s)|;
      MulStep(n, per);
      MulStep(n - 1, per - 1);
    }
  }

  /** The true count lies between ceil(units / per) and ceil(units / (per - 1)). */
  lemma FormulaGap(enc: Encoding, per: nat, s: string)
    requires per >= 2
    ensures CeilDiv(Units(enc, s), per) <= |Pieces(enc, per, s)| <= CeilDiv(Units(enc, s), per - 1)
  {
    var n, u := |Pieces(enc, per, s)|, Units(enc, s);
    PieceUnits(enc, per, s);
    CeilDivBounds(u, per, n);
    if n > 0 {
      CeilDivBounds(u, per - 1, n - 1);
    }
  }

  predicate AllWidth(enc: Encoding, w: nat, s: string) {
    forall i :: 0 <= i < |s| ==> Width(enc, s[i]) == w
  }

  lemma {:induction false} UniformUnits(enc: Encoding, w: nat, s: string)
    requires AllWidth(enc, w, s)
    ensures Units(enc, s) == |s| * w
  {
    hide Width;
    if s != "" {
      UniformUnits(enc, w, s[1..]);
      MulStep(|s|, w);
    }
  }

  lemma CeilDivStep(n: nat, d: nat)
    requires d > 0
    ensures CeilDiv(n + d, d) == 1 + CeilDiv(n, d)
  {
    hide CeilDiv;
    var q, r := CeilDiv(n, d), CeilDiv(n + d, d);
    CeilDivBounds(n, d, q);
    CeilDivBounds(n + d, d, r);
    MulStep(q + 1, d);
    CeilDivBounds(n + d, d, q + 1);
    CeilDivBounds(n + d, d, 0);
    MulStep(r, d);
    CeilDivBounds(n, d, r - 1);
  }

  /** A piece cut before the end, of characters of one width, is as full as can be. */
  lemma FullPiece(enc: Encoding, per: nat, w: nat, s: string, k: nat)
    requires per >= 2 && 1 <= w <= 2 && AllWidth(enc, w, s)
    requires s != "" && k == Reach(enc, per, s) < |s|
    ensures Units(enc, s[..k]) == per / w * w
  {
    hide Reach, Units;
    ReachIsLongest(enc, per, s, k);
    ReachIsLongest(enc, per, s, k + 1);
    UniformUnits(enc, w, s[..k]);
    UniformUnits(enc, w, s[..k + 1]);
  }

  /** With characters of one width, pieces are full up to the last multiple of it. */
  lemma {:induction false} UniformPieces(enc: Encoding, per: nat, w: nat, s: string)
    requires per >= 2 && 1 <= w <= 2 && AllWidth(enc, w, s)
    ensures per / w * w > 0
    ensures |Pieces(enc, per, s)| == CeilDiv(Units(enc, s), per / w * w)
    decreases |s|
  {
    hide Reach, Units, CeilDiv;
    var size := per / w * w;
    assert per - 1 <= size <= per;
    if s == "" {
      UnitsLength(enc, s);
      CeilDivBounds(0, size, 0);
    } else {
      ReachPositive(enc, per, s);
      var k := Reach(enc, per, s);
      CutPieceUnits(enc, per, s, k);
      UniformPieces(enc, per, w, s[k..]);
      if k < |s| {
        FullPiece(enc, per, w, s, k);
        CeilDivStep(Units(enc, s[k..]), size);
      } else {
        assert s[k..] == "" && s[..k] == s;
        UniformUnits(enc, w, s);
        CeilDivBounds(Units(enc, s), size, 1);
        CeilDivBounds(Units(enc, s), size, 0);
      }
    }
  }

  /** The formula is exact on characters of width 1; on characters of width 2 the
      upper bound is met, because 153 and 67 are odd. */
  lemma FormulaExtremes(enc: Encoding, s: string)
    ensures AllWidth(enc, 1, s) ==> |Pieces(enc, PerPart(enc), s)| == CeilDiv(Units(enc, s), PerPart(enc))
    ensures AllWidth(enc, 2, s) ==> |Pieces(enc, PerPart(enc), s)| == CeilDiv(Units(enc, s), PerPart(enc) - 1)
  {
    hide Pieces, Units, Width;
    if AllWidth(enc, 1, s) {
      UniformPieces(enc, PerPart(enc), 1, s);
    }
    if AllWidth(enc, 2, s) {
      UniformPieces(enc, PerPart(enc), 2, s);
    }
  }
}
