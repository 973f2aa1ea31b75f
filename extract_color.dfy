/**
 * The brand-colour probe: among the pixels of a logo shrunk to 50x50, ignore
 * the near-white and near-black ones and report the most frequent remaining
 * colour as `#rrggbb`, a fixed message when nothing remains, or the text of
 * the exception when the image cannot be read.
 */
module ExtractColor {
  import opened Optional

  type Channel = x: int | 0 <= x < 256

  datatype Pixel = Pixel(r: Channel, g: Channel, b: Channel)

  /** Opening, converting and resizing the image: the pixels it yields in row
      order, or the message of the exception raised on the way. */
  datatype Loaded = Pixels(pixels: seq<Pixel>) | Raised(message: string)

  const NoColorMessage := "No suitable color found"

  predicate NearWhite(p: Pixel) {
    p.r > 240 && p.g > 240 && p.b > 240
  }

  predicate NearBlack(p: Pixel) {
    p.r < 15 && p.g < 15 && p.b < 15
  }

  predicate Kept(p: Pixel) {
    !NearWhite(p) && !NearBlack(p)
  }

  /** The pixels that survive the filter, in their original order. */
  function Filtered(ps: seq<Pixel>): (r: seq<Pixel>)
    ensures |r| <= |ps|
    ensures forall q :: q in r <==> q in ps && Kept(q)
  {
    if ps == [] then []
    else
      assert ps == [ps[0]] + ps[1..];
      (if Kept(ps[0]) then [ps[0]] else []) + Filtered(ps[1..])
  }

  function FirstIndex(ps: seq<Pixel>, p: Pixel): (i: nat)
    requires p in ps
    ensures i < |ps| && ps[i] == p
    ensures forall j :: 0 <= j < i ==> ps[j] != p
  {
    if ps[0] == p then 0 else 1 + FirstIndex(ps[1..], p)
  }

  /** `Counter(ps).most_common(1)[0][0]`: a colour of greatest count; among colours of
      equal count the one seen first wins, as the counter keeps first-seen order. */
  function MostCommon(ps: seq<Pixel>): (best: Pixel)
    requires ps != []
    ensures best in ps
    ensures forall q :: q in ps ==> multiset(ps)[q] <= multiset(ps)[best]
    ensures forall j :: 0 <= j < FirstIndex(ps, best) ==> multiset(ps)[ps[j]] < multiset(ps)[best]
  {
    MostCommonAmong(ps, |ps|)
  }

  /** The winner among the first `n` pixels, each compared by its count in all of `ps`. */
  function MostCommonAmong(ps: seq<Pixel>, n: nat): (best: Pixel)
    requires 1 <= n <= |ps|
    ensures best in ps[..n]
    ensures forall j :: 0 <= j < n ==> multiset(ps)[ps[j]] <= multiset(ps)[best]
    ensures forall j :: 0 <= j < FirstIndex(ps, best) ==> multiset(ps)[ps[j]] < multiset(ps)[best]
  {
    if n == 1 then ps[0]
    else
      var b := MostCommonAmong(ps, n - 1);
      if multiset(ps)[ps[n - 1]] > multiset(ps)[b] then ps[n - 1] else b
  }

  const HexDigits := "0123456789abcdef"

  /** `format(c, '02x')`. */
  function Hex2(c: Channel): (s: string)
    ensures |s| == 2
  {
    [HexDigits[c / 16], HexDigits[c % 16]]
  }

  /** `f"#{r:02x}{g:02x}{b:02x}"`. */
  function ColorHex(p: Pixel): (s: string)
    ensures |s| == 7 && s[0] == '#'
    ensures forall i :: 1 <= i < 7 ==> s[i] in HexDigits
  {
    "#" + Hex2(p.r) + Hex2(p.g) + Hex2(p.b)
  }

  /** The value of a lower-case hexadecimal digit. */
  function HexValue(c: char): (v: nat)
    ensures v <= 16
    ensures v < 16 ==> HexDigits[v] == c
  {
    if '0' <= c <= '9' then c as int - '0' as int
    else if 'a' <= c <= 'f' then c as int - 'a' as int + 10
    else 16
  }

  /** Reading a `#rrggbb` colour back. */
  function ParseColorHex(s: string): Option<Pixel> {
    if |s| != 7 || s[0] != '#' then None
    else
      match (ParseHex2(s[1], s[2]), ParseHex2(s[3], s[4]), ParseHex2(s[5], s[6]))
      case (Some(r), Some(g), Some(b)) => Some(Pixel(r, g, b))
      case _ => None
  }

  function ParseHex2(hi: char, lo: char): Option<Channel> {
    var h, l := HexValue(hi), HexValue(lo);
    if h < 16 && l < 16 then Some(h * 16 + l) else None
  }

  lemma Hex2RoundTrip(c: Channel)
    ensures ParseHex2(Hex2(c)[0], Hex2(c)[1]) == Some(c)
  {
    assert HexValue(HexDigits[c / 16]) == c / 16;
    assert HexValue(HexDigits[c % 16]) == c % 16;
  }

  /** The hexadecimal text gives the colour back exactly. */
  lemma ParseColorHexRoundTrip(p: Pixel)
    ensures ParseColorHex(ColorHex(p)) == Some(p)
  {
    var s := ColorHex(p);
    Hex2RoundTrip(p.r);
    Hex2RoundTrip(p.g);
    Hex2RoundTrip(p.b);
    assert s[1..3] == Hex2(p.r) && s[3..5] == Hex2(p.g) && s[5..7] == Hex2(p.b);
  }

  /** `get_dominant_color`, after the image has been loaded. */
  function DominantColor(img: Loaded): string {
    match img
    case Raised(message) => message
    case Pixels(ps) =>
      var kept := Filtered(ps);
      if kept == [] then NoColorMessage else ColorHex(MostCommon(kept))
  }

  /** The result reads as a colour exactly when some pixel survives the filter, and that
      colour is a surviving pixel at least as frequent as every other surviving pixel,
      strictly more frequent than any surviving pixel first seen before it. */
  lemma DominantColorIsMostCommonKept(ps: seq<Pixel>)
    ensures var r := DominantColor(Pixels(ps));
      (r == NoColorMessage <==> forall q :: q in ps ==> !Kept(q))
      && (r != NoColorMessage ==>
            exists p :: ParseColorHex(r) == Some(p) && p in ps && Kept(p)
              && (forall q :: q in ps && Kept(q) ==> multiset(ps)[q] <= multiset(ps)[p])
              && (forall j :: 0 <= j < FirstIndex(ps, p) && Kept(ps[j]) ==> multiset(ps)[ps[j]] < multiset(ps)[p]))
  {
    var kept := Filtered(ps);
    if kept != [] {
      var p := MostCommon(kept);
      FilteredCounts(ps);
      ParseColorHexRoundTrip(p);
      assert ColorHex(p) != NoColorMessage by {
        assert |ColorHex(p)| != |NoColorMessage|;
      }
      forall j | 0 <= j < FirstIndex(ps, p) && Kept(ps[j])
        ensures multiset(ps)[ps[j]] < multiset(ps)[p]
      {
        var k := EarlierInFiltered(ps, p, j);
      }
    } else {
      assert forall q :: q in ps ==> !Kept(q);
    }
  }

  /** A kept pixel seen before the first `p` in the input is also seen before `p` after
      filtering, at position `k`. */
  lemma {:induction false} EarlierInFiltered(ps: seq<Pixel>, p: Pixel, j: nat) returns (k: nat)
    requires p in ps && Kept(p) && j < FirstIndex(ps, p) && Kept(ps[j])
    ensures p in Filtered(ps) && k < FirstIndex(Filtered(ps), p) && Filtered(ps)[k] == ps[j]
    decreases |ps|
  {
    var f := Filtered(ps);
    var rest := Filtered(ps[1..]);
    FilteredCons(ps);
    FirstIndexShift(ps, p);
    if j == 0 {
      assert f[0] == ps[0] != p;
      k := 0;
    } else {
      var k' := EarlierInFiltered(ps[1..], p, j - 1);
      if Kept(ps[0]) {
        assert f == [ps[0]] + rest;
        assert f[1..] == rest && f[k' + 1] == rest[k'];
        FirstIndexShift(f, p);
        k := k' + 1;
      } else {
        assert f == rest;
        k := k';
      }
    }
  }

  /** Filtering keeps every occurrence of a kept colour. */
  lemma {:induction false} FilteredCounts(ps: seq<Pixel>)
    ensures forall q :: Kept(q) ==> multiset(Filtered(ps))[q] == multiset(ps)[q]
  {
    if ps != [] {
      FilteredCons(ps);
      FilteredCounts(ps[1..]);
      assert ps == [ps[0]] + ps[1..];
    }
  }

  lemma FilteredCons(ps: seq<Pixel>)
    requires ps != []
    ensures Filtered(ps) == (if Kept(ps[0]) then [ps[0]] else []) + Filtered(ps[1..])
  {
  }

  lemma FirstIndexShift(s: seq<Pixel>, p: Pixel)
    requires |s| > 0 && p in s && s[0] != p
    ensures p in s[1..] && FirstIndex(s, p) == 1 + FirstIndex(s[1..], p)
  {
  }

  /** A logo of one kept colour reports that colour. */
  lemma UniformImage(ps: seq<Pixel>, c: Pixel)
    requires ps != [] && Kept(c)
    requires forall i :: 0 <= i < |ps| ==> ps[i] == c
    ensures DominantColor(Pixels(ps)) == ColorHex(c)
  {
    var kept := Filtered(ps);
    assert ps[0] in kept;
    assert forall q :: q in kept ==> q == c;
  }

  /** A failure to read the image reports the exception's text. */
  lemma FailureReportsMessage(message: string)
    ensures DominantColor(Raised(message)) == message
  {
  }
}
