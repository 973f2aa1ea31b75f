/**
 * How a material is classified and named on screen: the source category
 * inferred from its fields, the display normalisation of its text fields,
 * the de-duplication of name parts by a separator-blind comparison key, and
 * the title, subline and name-part lists built from them.
 */
module MaterialDisplay {
  import opened JsText
  import opened JsCore
  import opened Optional
  import opened MaterialCatalog
  import ApiHelpers

  // ---------------------------------------------------------------- display text

  /** Text as the display normaliser leaves it: whitespace only as single spaces, none at
      either end, and no underscores. */
  predicate Spaced(s: string) {
    '_' !in s
    && (forall i :: 0 <= i < |s| && IsWhitespace(s[i]) ==> s[i] == ' ')
    && (forall i, j :: 0 <= i < |s| && 0 <= j < |s| && j == i + 1 ==> !(s[i] == ' ' && s[j] == ' '))
  }

  predicate DisplayNormal(s: string) {
    Spaced(s) && (s == [] || (!IsWhitespace(s[0]) && !IsWhitespace(s[|s| - 1])))
  }

  /** Length of the run of `c` that starts `s`. */
  function CharRun(s: string, c: char): (k: nat)
    ensures 1 <= k <= |s| || (k == 0 && (s == [] || s[0] != c))
    ensures forall i :: 0 <= i < k ==> s[i] == c
  {
    if s != [] && s[0] == c then 1 + CharRun(s[1..], c) else 0
  }

  /** `.replace(/_+/g, ' ')`. */
  function UnderscoresToSpace(s: string): (r: string)
    ensures '_' !in r
    decreases |s|
  {
    if s == [] then ""
    else if s[0] == '_' then " " + UnderscoresToSpace(s[CharRun(s, '_')..])
    else [s[0]] + UnderscoresToSpace(s[1..])
  }

  // `.replace(/\s*·\s*/g, ' · ')`: a middle dot with the whitespace on both sides of it
  // becomes exactly one space, the dot, one space.
  function SpaceAroundDots(s: string): (r: string)
    ensures '_' !in s ==> '_' !in r
    decreases |s|
  {
    if s == [] then ""
    else
      var k := WhitespaceRun(s);
      if k < |s| && s[k] == '·' then
        var after := s[k + 1..];
        " · " + SpaceAroundDots(after[WhitespaceRun(after)..])
      else [s[0]] + SpaceAroundDots(s[1..])
  }

  /** `.replace(/\s+/g, ' ')`. */
  function CollapseWhitespace(s: string): (r: string)
    ensures (r == []) == (s == [])
    ensures r != [] ==> (IsWhitespace(r[0]) <==> IsWhitespace(s[0]))
    ensures r != [] ==> (IsWhitespace(r[|r| - 1]) <==> IsWhitespace(s[|s| - 1]))
    ensures '_' !in s ==> '_' !in r
    decreases |s|
  {
    if s == [] then ""
    else
      var k := WhitespaceRun(s);
      if k > 0 then " " + CollapseWhitespace(s[k..])
      else [s[0]] + CollapseWhitespace(s[1..])
  }

  /** Collapsing leaves single spaces only. */
  lemma {:induction false} CollapseIsSpaced(s: string)
    requires '_' !in s
    ensures Spaced(CollapseWhitespace(s))
    decreases |s|
  {
    if s != [] {
      var k := WhitespaceRun(s);
      if k > 0 {
        CollapseIsSpaced(s[k..]);
        assert s[k..] == [] || !IsWhitespace(s[k]);
      } else {
        CollapseIsSpaced(s[1..]);
      }
    }
  }

  /** Text that already has single spaces only is left as it is. */
  lemma {:induction false} CollapseSpacedFixed(s: string)
    requires Spaced(s)
    ensures CollapseWhitespace(s) == s
    decreases |s|
  {
    if s != [] {
      var k := WhitespaceRun(s);
      assert Spaced(s[1..]);
      CollapseSpacedFixed(s[1..]);
      if k > 0 {
        assert s[0] == ' ';
        assert |s| > 1 ==> !IsWhitespace(s[1]);
      }
      assert s == [s[0]] + s[1..];
    }
  }

  /** The final `.trim()` of `normalizeDisplayText`, on text whose whitespace is already
      single spaces: at most one space goes from each end. */
  function TrimSpaced(s: string): (r: string)
  {
    var a := if s != [] && s[0] == ' ' then s[1..] else s;
    if a != [] && a[|a| - 1] == ' ' then a[..|a| - 1] else a
  }

  /** On single-spaced text, dropping one space at each end is exactly `trim`. */
  lemma {:induction false} TrimSpacedIsTrim(s: string)
    requires Spaced(s)
    ensures TrimSpaced(s) == Trim(s)
    ensures DisplayNormal(TrimSpaced(s))
  {
    var k, e := TrimSpacedSlice(s);
    SpacedSlice(s, k, e);
    TrimSpacedTrims(s);
  }

  /** `TrimSpaced` keeps the slice `s[k..e]`. */
  lemma TrimSpacedSlice(s: string) returns (k: nat, e: nat)
    ensures k <= e <= |s| && TrimSpaced(s) == s[k..e]
  {
    k := if s != [] && s[0] == ' ' then 1 else 0;
    var a := s[k..];
    e := if a != [] && a[|a| - 1] == ' ' then |s| - 1 else |s|;
  }

  lemma TrimSpacedTrims(s: string)
    requires Spaced(s)
    ensures TrimSpaced(s) == Trim(s)
  {
    var k := if s != [] && s[0] == ' ' then 1 else 0;
    var a := s[k..];
    SpacedSlice(s, k, |s|);
    TrimStartSpaced(s);
    TrimEndSpaced(a);
  }

  lemma TrimStartSpaced(s: string)
    requires Spaced(s)
    ensures TrimStart(s) == if s != [] && s[0] == ' ' then s[1..] else s
  {
    if s != [] && s[0] == ' ' {
      assert |s| > 1 ==> s[1] != ' ';
      TrimStartNoLead(s[1..]);
    } else {
      TrimStartNoLead(s);
    }
  }

  lemma TrimEndSpaced(s: string)
    requires Spaced(s)
    ensures TrimEnd(s) == if s != [] && s[|s| - 1] == ' ' then s[..|s| - 1] else s
  {
    if s != [] && s[|s| - 1] == ' ' {
      assert |s| > 1 ==> s[|s| - 2] != ' ';
      TrimEndNoTrail(s[..|s| - 1]);
    } else {
      TrimEndNoTrail(s);
    }
  }

  /** `normalizeDisplayText`: underscores to spaces, spaces around middle dots, whitespace
      collapsed, ends trimmed. */
  function NormalizeDisplayText(v: JsValue): (r: string)
    ensures !v.Str? ==> r == ""
  {
    TrimSpaced(CollapseWhitespace(SpaceAroundDots(UnderscoresToSpace(ApiHelpers.NormalizeText(v)))))
  }

  /** The display text has single spaces only, no underscores and no whitespace at either
      end, and it is what the original chain of replacements and a final `trim` give. */
  lemma NormalizeDisplayTextNormal(v: JsValue)
    ensures DisplayNormal(NormalizeDisplayText(v))
    ensures NormalizeDisplayText(v) ==
      Trim(CollapseWhitespace(SpaceAroundDots(UnderscoresToSpace(ApiHelpers.NormalizeText(v)))))
  {
    var dotted := SpaceAroundDots(UnderscoresToSpace(ApiHelpers.NormalizeText(v)));
    CollapseIsSpaced(dotted);
    TrimSpacedIsTrim(CollapseWhitespace(dotted));
  }

  /** Every piece of single-spaced text is single-spaced. */
  lemma SpacedSlice(s: string, k: nat, e: nat)
    requires Spaced(s) && k <= e <= |s|
    ensures Spaced(s[k..e])
  {
    var t := s[k..e];
    forall i | 0 <= i < |t|
      ensures t[i] != '_' && (IsWhitespace(t[i]) ==> t[i] == ' ')
    {
      assert t[i] == s[k + i];
    }
    forall i, j | 0 <= i < |t| && 0 <= j < |t| && j == i + 1
      ensures !(t[i] == ' ' && t[j] == ' ')
    {
      assert t[i] == s[k + i] && t[j] == s[k + j];
    }
  }

  /** Text that is already display-normal and has no middle dot is left as it is. */
  lemma NormalTextIsFixed(s: string)
    requires DisplayNormal(s) && '·' !in s
    ensures NormalizeDisplayText(Str(s)) == s
  {
    assert ApiHelpers.NormalizeText(Str(s)) == s by {
      TrimStartNoLead(s);
      TrimEndNoTrail(s);
    }
    assert UnderscoresToSpace(s) == s by {
      NoUnderscoreFixed(s);
    }
    assert SpaceAroundDots(s) == s by {
      NoDotFixed(s);
    }
    assert CollapseWhitespace(s) == s by {
      CollapseSpacedFixed(s);
    }
    assert TrimSpaced(s) == s;
  }

  lemma {:induction false} NoUnderscoreFixed(s: string)
    requires '_' !in s
    ensures UnderscoresToSpace(s) == s
    decreases |s|
  {
    if s != [] {
      NoUnderscoreFixed(s[1..]);
      assert s == [s[0]] + s[1..];
    }
  }

  lemma {:induction false} NoDotFixed(s: string)
    requires '·' !in s
    ensures SpaceAroundDots(s) == s
    decreases |s|
  {
    if s != [] {
      NoDotFixed(s[1..]);
      var k := WhitespaceRun(s);
      assert !(k < |s| && s[k] == '·');
      assert s == [s[0]] + s[1..];
    }
  }

  // ---------------------------------------------------------------- compare keys

  /** The characters `toCompareKey` removes. */
  predicate IsKeySeparator(c: char) {
    c == ' ' || c == '_' || c == '.' || c == '-' || c == '·' || c == ':' || c == '|' || c == ','
    || c == '(' || c == ')' || c == '[' || c == ']' || c == '{' || c == '}'
  }

  function RemoveKeySeparators(s: string): (r: string)
    ensures forall i :: 0 <= i < |r| ==> !IsKeySeparator(r[i])
  {
    if s == [] then ""
    else if IsKeySeparator(s[0]) then RemoveKeySeparators(s[1..])
    else [s[0]] + RemoveKeySeparators(s[1..])
  }

  /** Removing separators keeps only characters of the text. */
  lemma {:induction false} RemoveKeySeparatorsKeeps(s: string)
    ensures forall c :: c in RemoveKeySeparators(s) ==> c in s
    decreases |s|
  {
    if s != [] {
      RemoveKeySeparatorsKeeps(s[1..]);
      RemoveKeySeparatorsCons(s);
    }
  }

  /** `toCompareKey`: lower-cased, with every separator character removed. */
  function ToCompareKey(s: string): (r: string)
    ensures forall i :: 0 <= i < |r| ==> !IsKeySeparator(r[i]) && !IsAsciiUpper(r[i])
  {
    var lower := ToLower(s);
    RemoveKeySeparatorsKeeps(lower);
    assert forall c :: c in lower ==> !IsAsciiUpper(c);
    RemoveKeySeparators(lower)
  }

  lemma {:induction false} RemoveKeySeparatorsConcat(a: string, b: string)
    ensures RemoveKeySeparators(a + b) == RemoveKeySeparators(a) + RemoveKeySeparators(b)
    decreases |a|
  {
    if a == [] {
      assert a + b == b;
    } else {
      var head := if IsKeySeparator(a[0]) then "" else [a[0]];
      var x, y := RemoveKeySeparators(a[1..]), RemoveKeySeparators(b);
      assert RemoveKeySeparators(a + b) == head + RemoveKeySeparators(a[1..] + b) by {
        assert (a + b)[1..] == a[1..] + b;
        RemoveKeySeparatorsCons(a + b);
      }
      assert RemoveKeySeparators(a) == head + x by {
        RemoveKeySeparatorsCons(a);
      }
      RemoveKeySeparatorsConcat(a[1..], b);
      assert head + (x + y) == (head + x) + y;
    }
  }

  lemma RemoveKeySeparatorsCons(s: string)
    requires s != []
    ensures RemoveKeySeparators(s) == (if IsKeySeparator(s[0]) then "" else [s[0]]) + RemoveKeySeparators(s[1..])
  {
  }

  /** Two texts that differ only in letter case and separators compare equal: in
      particular "a b", "A_b" and "a-B" have the same key. */
  lemma CompareKeyIgnoresSeparator(a: string, c: char, b: string)
    requires IsKeySeparator(c)
    ensures ToCompareKey(a + [c] + b) == ToCompareKey(a) + ToCompareKey(b)
  {
    var la, lb := ToLower(a), ToLower(b);
    assert ToLower(a + [c] + b) == la + [c] + lb by {
      ToLowerConcat(a + [c], b);
      ToLowerConcat(a, [c]);
      assert ToLower([c]) == [c];
    }
    RemoveKeySeparatorsConcat(la + [c], lb);
    RemoveKeySeparatorsConcat(la, [c]);
    assert RemoveKeySeparators([c]) == [];
    assert RemoveKeySeparators(la + [c]) == RemoveKeySeparators(la);
  }

  /** Taking the key of a key changes nothing. */
  lemma CompareKeyIdempotent(s: string)
    ensures ToCompareKey(ToCompareKey(s)) == ToCompareKey(s)
  {
    var k := ToCompareKey(s);
    assert ToLower(k) == k;
    KeySeparatorFree(k);
  }

  lemma {:induction false} KeySeparatorFree(s: string)
    requires forall i :: 0 <= i < |s| ==> !IsKeySeparator(s[i])
    ensures RemoveKeySeparators(s) == s
  {
    if s != [] {
      KeySeparatorFree(s[1..]);
      assert s == [s[0]] + s[1..];
    }
  }

  // ---------------------------------------------------------------- unique parts

  /** `parts.map(normalizeDisplayText)`. */
  function NormalizeAll(parts: seq<JsValue>): (r: seq<string>)
    ensures |r| == |parts|
    ensures forall i :: 0 <= i < |parts| ==> r[i] == NormalizeDisplayText(parts[i])
  {
    seq(|parts|, i requires 0 <= i < |parts| => NormalizeDisplayText(parts[i]))
  }

  /** The normalised parts `uniqueDisplayParts` keeps, given the keys already `seen`. */
  function Dedup(normalized: seq<string>, seen: set<string>): (r: seq<string>)
    ensures forall i :: 0 <= i < |r| ==> r[i] != "" && ToCompareKey(r[i]) != "" && ToCompareKey(r[i]) !in seen
    ensures forall x :: x in r ==> x in normalized
    ensures |r| <= |normalized|
  {
    if normalized == [] then []
    else
      var key := ToCompareKey(normalized[0]);
      if normalized[0] == "" || key == "" || key in seen then Dedup(normalized[1..], seen)
      else [normalized[0]] + Dedup(normalized[1..], seen + {key})
  }

  function UniqueParts(parts: seq<JsValue>): seq<string> {
    Dedup(NormalizeAll(parts), {})
  }

  /** Every kept part is display-normal text. */
  lemma UniquePartsNormal(parts: seq<JsValue>)
    ensures forall x :: x in UniqueParts(parts) ==> x != "" && DisplayNormal(x)
  {
    var ns := NormalizeAll(parts);
    forall x | x in UniqueParts(parts)
      ensures DisplayNormal(x)
    {
      var i :| 0 <= i < |ns| && ns[i] == x;
      NormalizeDisplayTextNormal(parts[i]);
    }
  }

  /** `uniqueDisplayParts`: one pass that normalises each part and keeps it unless it is
      empty, has an empty key or repeats a key kept before. */
  method UniqueDisplayParts(parts: seq<JsValue>) returns (result: seq<string>)
    ensures result == UniqueParts(parts)
  {
    ghost var ns := NormalizeAll(parts);
    var seen: set<string> := {};
    result := [];
    for i := 0 to |parts|
      invariant result + Dedup(ns[i..], seen) == UniqueParts(parts)
    {
      var normalized := NormalizeDisplayText(parts[i]);
      assert normalized == ns[i];
      DedupAt(ns, i, seen);
      if normalized == "" {
        continue;
      }
      var key := ToCompareKey(normalized);
      if key == "" || key in seen {
        continue;
      }
      AppendAssoc(result, normalized, Dedup(ns[i + 1..], seen + {key}));
      seen := seen + {key};
      result := result + [normalized];
    }
  }

  /** `Dedup` of the suffix from `i`, one step unfolded. */
  lemma DedupAt(ns: seq<string>, i: nat, seen: set<string>)
    requires i < |ns|
    ensures var key := ToCompareKey(ns[i]);
      Dedup(ns[i..], seen) ==
        if ns[i] == "" || key == "" || key in seen then Dedup(ns[i + 1..], seen)
        else [ns[i]] + Dedup(ns[i + 1..], seen + {key})
  {
    DedupStep(ns[i..], seen);
    assert ns[i..][0] == ns[i] && ns[i..][1..] == ns[i + 1..];
  }

  lemma AppendAssoc<T>(a: seq<T>, x: T, b: seq<T>)
    ensures (a + [x]) + b == a + ([x] + b)
  {
  }

  /** No two kept parts share a compare key. */
  lemma {:induction false} DedupKeysDistinct(ns: seq<string>, seen: set<string>)
    ensures forall i, j :: 0 <= i < j < |Dedup(ns, seen)| ==>
      ToCompareKey(Dedup(ns, seen)[i]) != ToCompareKey(Dedup(ns, seen)[j])
    decreases |ns|
  {
    if ns != [] {
      var key := ToCompareKey(ns[0]);
      DedupStep(ns, seen);
      if ns[0] == "" || key == "" || key in seen {
        DedupKeysDistinct(ns[1..], seen);
      } else {
        DedupKeysDistinct(ns[1..], seen + {key});
        KeysDistinctCons(ns[0], Dedup(ns[1..], seen + {key}));
      }
    }
  }

  lemma KeysDistinctCons(x: string, rest: seq<string>)
    requires forall i :: 0 <= i < |rest| ==> ToCompareKey(rest[i]) != ToCompareKey(x)
    requires forall i, j :: 0 <= i < j < |rest| ==> ToCompareKey(rest[i]) != ToCompareKey(rest[j])
    ensures forall i, j :: 0 <= i < j < |[x] + rest| ==>
      ToCompareKey(([x] + rest)[i]) != ToCompareKey(([x] + rest)[j])
  {
    var r := [x] + rest;
    forall i, j | 0 <= i < j < |r|
      ensures ToCompareKey(r[i]) != ToCompareKey(r[j])
    {
      assert r[j] == rest[j - 1];
      if i > 0 {
        assert r[i] == rest[i - 1];
      }
    }
  }

  /** One step of `Dedup`, unfolded. */
  lemma DedupStep(ns: seq<string>, seen: set<string>)
    requires ns != []
    ensures var key := ToCompareKey(ns[0]);
      Dedup(ns, seen) ==
        if ns[0] == "" || key == "" || key in seen then Dedup(ns[1..], seen)
        else [ns[0]] + Dedup(ns[1..], seen + {key})
  {
  }

  /** Nothing with a usable key is lost: every normalised part with a non-empty key is
      represented in the output, at position `j`, by a part with the same key. */
  lemma {:induction false} DedupCovers(ns: seq<string>, seen: set<string>, i: nat) returns (j: nat)
    requires i < |ns| && ns[i] != "" && ToCompareKey(ns[i]) != "" && ToCompareKey(ns[i]) !in seen
    ensures j < |Dedup(ns, seen)| && ToCompareKey(Dedup(ns, seen)[j]) == ToCompareKey(ns[i])
    decreases i
  {
    var key := ToCompareKey(ns[0]);
    DedupStep(ns, seen);
    if i == 0 || (!(ns[0] == "" || key == "" || key in seen) && key == ToCompareKey(ns[i])) {
      j := 0;
    } else if ns[0] == "" || key == "" || key in seen {
      assert ns[1..][i - 1] == ns[i];
      j := DedupCovers(ns[1..], seen, i - 1);
    } else {
      assert ns[1..][i - 1] == ns[i];
      var rest := Dedup(ns[1..], seen + {key});
      var j' := DedupCovers(ns[1..], seen + {key}, i - 1);
      assert Dedup(ns, seen)[j' + 1] == rest[j'];
      j := j' + 1;
    }
  }

  /** Every part with usable text shows up in the output under its key, at position `j`. */
  lemma UniquePartsCover(parts: seq<JsValue>, i: nat) returns (j: nat)
    requires i < |parts|
    requires NormalizeDisplayText(parts[i]) != "" && ToCompareKey(NormalizeDisplayText(parts[i])) != ""
    ensures j < |UniqueParts(parts)| && ToCompareKey(UniqueParts(parts)[j]) == ToCompareKey(NormalizeDisplayText(parts[i]))
  {
    var ns := NormalizeAll(parts);
    assert ns[i] == NormalizeDisplayText(parts[i]);
    j := DedupCovers(ns, {}, i);
  }

  /** Parts that all have usable text under pairwise different keys, none seen
      before, are all kept, in their order. */
  lemma {:induction false} DedupKeepsDistinct(ns: seq<string>, seen: set<string>)
    requires forall i :: 0 <= i < |ns| ==> ns[i] != "" && ToCompareKey(ns[i]) != "" && ToCompareKey(ns[i]) !in seen
    requires forall i, j :: 0 <= i < j < |ns| ==> ToCompareKey(ns[i]) != ToCompareKey(ns[j])
    ensures Dedup(ns, seen) == ns
    decreases |ns|
  {
    if ns != [] {
      var key := ToCompareKey(ns[0]);
      DedupStep(ns, seen);
      var rest := ns[1..];
      assert forall i :: 0 <= i < |rest| ==> rest[i] == ns[i + 1];
      DedupKeepsDistinct(rest, seen + {key});
      assert ns == [ns[0]] + rest;
    }
  }

  /** Predicate of `DedupKeepsDistinct` on the parts themselves. */
  predicate DistinctUsable(parts: seq<JsValue>) {
    (forall i :: 0 <= i < |parts| ==>
       NormalizeDisplayText(parts[i]) != "" && ToCompareKey(NormalizeDisplayText(parts[i])) != "")
    && forall i, j :: 0 <= i < j < |parts| ==>
         ToCompareKey(NormalizeDisplayText(parts[i])) != ToCompareKey(NormalizeDisplayText(parts[j]))
  }

  /** When every part has usable text under its own key, every part shows, normalised,
      in the given order. */
  lemma UniquePartsAllKept(parts: seq<JsValue>)
    requires DistinctUsable(parts)
    ensures UniqueParts(parts) == NormalizeAll(parts)
  {
    DedupKeepsDistinct(NormalizeAll(parts), {});
  }

  /** A part that repeats the key of an earlier part never appears twice, and the first
      of them is the one kept: the output starts with the first usable part. */
  lemma FirstUsablePartLeads(parts: seq<JsValue>)
    requires parts != [] && NormalizeDisplayText(parts[0]) != "" && ToCompareKey(NormalizeDisplayText(parts[0])) != ""
    ensures UniqueParts(parts) != [] && UniqueParts(parts)[0] == NormalizeDisplayText(parts[0])
  {
    assert NormalizeAll(parts)[0] == NormalizeDisplayText(parts[0]);
  }

  // ---------------------------------------------------------------- hints

  /** The separators the hint-stripping pattern allows after a hint. */
  predicate IsHintSeparator(c: char) {
    c in "·-_:|,/"
  }

  /** How much of `rest` the optional group `(?:\s*[·\-_:|,/]+\s*)?` takes. */
  function SeparatorMatch(rest: string): (k: nat)
    ensures k <= |rest|
  {
    var ws := WhitespaceRun(rest);
    var seps := SeparatorRun(rest[ws..]);
    if seps == 0 then 0
    else ws + seps + WhitespaceRun(rest[ws + seps..])
  }

  function SeparatorRun(s: string): (k: nat)
    ensures k <= |s|
    ensures forall i :: 0 <= i < k ==> IsHintSeparator(s[i])
  {
    if s != [] && IsHintSeparator(s[0]) then 1 + SeparatorRun(s[1..]) else 0
  }

  /** Whether `text` starts with `hint`, ignoring the case of ASCII letters. */
  predicate StartsWithIgnoringCase(text: string, hint: string) {
    |hint| <= |text| && ToLower(text[..|hint|]) == ToLower(hint)
  }

  /** `stripLeadingDisplayHint`: the hint at the start (in any letter case) and a separator
      after it are removed, and the rest is trimmed. */
  function StripLeadingDisplayHint(text: string, hint: string): (r: string)
    ensures |r| <= |text|
    ensures text == "" || hint == "" ==> r == text
    ensures text != "" && hint != "" && !StartsWithIgnoringCase(text, hint) ==> r == Trim(text)
  {
    if text == "" || hint == "" then text
    else if StartsWithIgnoringCase(text, hint) then
      var rest := text[|hint|..];
      Trim(rest[SeparatorMatch(rest)..])
    else Trim(text)
  }

  /** A text that is only its hint, with or without a trailing separator, strips to nothing. */
  lemma StripWholeHint(hint: string, sep: string)
    requires hint != "" && forall i :: 0 <= i < |sep| ==> IsHintSeparator(sep[i])
    ensures StripLeadingDisplayHint(hint + sep, hint) == ""
  {
    var text := hint + sep;
    assert text[..|hint|] == hint;
    var rest := text[|hint|..];
    assert rest == sep;
    assert WhitespaceRun(rest) == 0 by {
      assert rest == [] || !IsWhitespace(rest[0]);
    }
    SeparatorRunAll(sep);
  }

  lemma {:induction false} SeparatorRunAll(s: string)
    requires forall i :: 0 <= i < |s| ==> IsHintSeparator(s[i])
    ensures SeparatorRun(s) == |s|
  {
    if s != [] {
      SeparatorRunAll(s[1..]);
    }
  }

  /** The hints for a subject: its filter candidates, display-normalised, blanks dropped. */
  function SubjectHints(candidates: seq<string>): (hints: seq<string>)
    ensures forall i :: 0 <= i < |hints| ==> hints[i] != ""
  {
    if candidates == [] then []
    else
      var h := NormalizeDisplayText(Str(candidates[0]));
      (if h == "" then [] else [h]) + SubjectHints(candidates[1..])
  }

  /** The topic after stripping every hint in turn. */
  function StripHints(topic: string, hints: seq<string>): (r: string)
    ensures |r| <= |topic|
  {
    if hints == [] then topic else StripHints(StripLeadingDisplayHint(topic, hints[0]), hints[1..])
  }

  /** `normalizeTopicForDisplay`, with `getMaterialSubjectFilterCandidates` as `candidates`. */
  function TopicForDisplay(topicValue: JsValue, subjectValue: JsValue, candidates: string -> seq<string>): (r: string)
  {
    var topic := NormalizeDisplayText(topicValue);
    var subject := NormalizeDisplayText(subjectValue);
    if topic == "" || subject == "" then topic
    else
      var stripped := StripHints(topic, SubjectHints(candidates(subject)));
      if stripped == "" || ToCompareKey(stripped) == ToCompareKey(subject) then "" else stripped
  }

  /** The loop of `normalizeTopicForDisplay`, stripping the hints one after another. */
  method NormalizeTopicForDisplay(topicValue: JsValue, subjectValue: JsValue, candidates: string -> seq<string>)
    returns (r: string)
    ensures r == TopicForDisplay(topicValue, subjectValue, candidates)
  {
    var topic := NormalizeDisplayText(topicValue);
    var subject := NormalizeDisplayText(subjectValue);
    if topic == "" || subject == "" {
      return topic;
    }
    var hints := SubjectHints(candidates(subject));
    var stripped := topic;
    for i := 0 to |hints|
      invariant StripHints(stripped, hints[i..]) == StripHints(topic, hints)
    {
      assert hints[i..][1..] == hints[i + 1..];
      stripped := StripLeadingDisplayHint(stripped, hints[i]);
    }
    assert hints[|hints|..] == [];
    if stripped == "" || ToCompareKey(stripped) == ToCompareKey(subject) {
      return "";
    }
    return stripped;
  }

  /** The displayed topic never repeats the subject: it is empty, or its key differs
      from the subject's, and it is never longer than the normalised topic. */
  lemma TopicNeverRepeatsSubject(topicValue: JsValue, subjectValue: JsValue, candidates: string -> seq<string>)
    ensures var r := TopicForDisplay(topicValue, subjectValue, candidates);
      var subject := NormalizeDisplayText(subjectValue);
      |r| <= |NormalizeDisplayText(topicValue)|
      && (subject != "" ==> r == "" || ToCompareKey(r) != ToCompareKey(subject))
  {
  }

  /** Without a subject the topic is shown as it is, normalised. */
  lemma TopicWithoutSubject(topicValue: JsValue, candidates: string -> seq<string>)
    ensures TopicForDisplay(topicValue, Str(""), candidates) == NormalizeDisplayText(topicValue)
  {
    assert NormalizeDisplayText(Str("")) == "";
  }

  // ---------------------------------------------------------------- category

  /** The fields of a material that its display depends on. Text fields may hold any
      JSON value; the numeric fields are `None` when null or missing. */
  datatype MaterialDisplayData = MaterialDisplayData(
    sourceCategory: JsValue,
    materialType: JsValue,
    publisher: JsValue,
    bookTitle: JsValue,
    ebookDescription: JsValue,
    ebookToc: JsValue,
    schoolName: JsValue,
    schoolLevel: JsValue,
    subject: JsValue,
    topic: JsValue,
    year: Option<int>,
    gradeNumber: Option<int>,
    semester: Option<int>)

  /** Any of the signs that a material is an ebook, whatever its stored category says. */
  predicate HasEbookHint(data: MaterialDisplayData) {
    var subject := ToLower(ApiHelpers.NormalizeText(data.subject));
    ToLower(TypeText(data)) in EbookTypeHints
    || subject == "전자책" || subject == "ebook"
    || ApiHelpers.NormalizeText(data.ebookDescription) != ""
    || HasNonEmptyEbookToc(data.ebookToc)
  }

  /** The trimmed material type. */
  function TypeText(data: MaterialDisplayData): string {
    ApiHelpers.NormalizeText(data.materialType)
  }

  /** `resolveSourceCategory`: an ebook sign wins, then a textbook type, then a reference
      type, and otherwise the stored category (school_exam when it is not a category). */
  function ResolveSourceCategory(data: MaterialDisplayData): (c: SourceCategory)
    ensures HasEbookHint(data) ==> c == Ebook
    ensures !HasEbookHint(data) && TypeText(data) in TextbookTypes ==> c == Textbook
    ensures !HasEbookHint(data) && TypeText(data) !in TextbookTypes && TypeText(data) in ReferenceTypes ==> c == Reference
    ensures !HasEbookHint(data) && TypeText(data) !in TextbookTypes && TypeText(data) !in ReferenceTypes ==>
      c == NormalizeSourceCategory(data.sourceCategory)
  {
    var t := TypeText(data);
    if HasEbookHint(data) then Ebook
    else if t in TextbookTypes then Textbook
    else if t in ReferenceTypes then Reference
    else NormalizeSourceCategory(data.sourceCategory)
  }

  /** Storing the resolved category and resolving again gives the same category, so the
      category migration reaches a fixed point in one pass. */
  lemma ResolveSourceCategoryStable(data: MaterialDisplayData)
    ensures var c := ResolveSourceCategory(data);
      ResolveSourceCategory(data.(sourceCategory := Str(CategoryName(c)))) == c
  {
    var c := ResolveSourceCategory(data);
    NormalizeCategoryName(c);
  }

  /** The stored category only matters when no sign and no type list decides. */
  lemma StoredCategoryIgnoredWithHint(data: MaterialDisplayData, other: JsValue)
    requires HasEbookHint(data) || TypeText(data) in TextbookTypes || TypeText(data) in ReferenceTypes
    ensures ResolveSourceCategory(data.(sourceCategory := other)) == ResolveSourceCategory(data)
  {
  }

  // ---------------------------------------------------------------- joining parts

  lemma SpacedConcat(a: string, b: string)
    requires Spaced(a) && Spaced(b)
    requires a == [] || b == [] || a[|a| - 1] != ' ' || b[0] != ' '
    ensures Spaced(a + b)
  {
    var s := a + b;
    forall i, j | 0 <= i < |s| && 0 <= j < |s| && j == i + 1
      ensures !(s[i] == ' ' && s[j] == ' ')
    {
      if j < |a| {
        assert s[i] == a[i] && s[j] == a[j];
      } else if i >= |a| {
        assert s[i] == b[i - |a|] && s[j] == b[j - |a|];
      }
    }
  }

  /** Joining non-empty display-normal parts with a single space or with " · " gives
      display-normal text. */
  lemma {:induction false} JoinDisplayNormal(parts: seq<string>, sep: string)
    requires forall i :: 0 <= i < |parts| ==> parts[i] != "" && DisplayNormal(parts[i])
    requires sep == " " || sep == " · "
    ensures DisplayNormal(Join(parts, sep))
    ensures parts != [] ==> Join(parts, sep) != [] && StartsWith(Join(parts, sep), parts[0])
  {
    if |parts| >= 2 {
      var rest := Join(parts[1..], sep);
      JoinDisplayNormal(parts[1..], sep);
      var p := parts[0];
      assert Spaced(sep);
      SpacedConcat(p, sep);
      SpacedConcat(p + sep, rest);
      assert Join(parts, sep) == p + sep + rest;
      assert (p + sep + rest)[..|p|] == p;
    }
  }

  /** `a || b` on strings. */
  function Either(a: string, b: string): string {
    if a != "" then a else b
  }

  /** `value ? `${value}${suffix}` : ''` for the numeric fields. */
  function NumberLabel(n: Option<int>, suffix: string): (r: string)
    ensures r == "" <==> n.None? || n.value == 0
  {
    if n.None? || n.value == 0 then "" else IntToString(n.value) + suffix
  }

  // ---------------------------------------------------------------- title

  /** The candidate parts of the title, before de-duplication. */
  function TitleParts(data: MaterialDisplayData, candidates: string -> seq<string>): (parts: seq<JsValue>)
    ensures |parts| <= 3
  {
    var subject := NormalizeDisplayText(data.subject);
    var topic := TopicForDisplay(data.topic, Str(subject), candidates);
    var materialType := NormalizeDisplayText(data.materialType);
    var bookTitle := NormalizeDisplayText(data.bookTitle);
    var publisher := NormalizeDisplayText(data.publisher);
    match ResolveSourceCategory(data)
    case SchoolExam => [Str(subject), Str(Either(topic, Either(NormalizeDisplayText(data.topic), materialType)))]
    case Ebook => [Str(Either(bookTitle, Either(topic, subject))), Str(StripLeadingDisplayHint(topic, bookTitle)), Str(publisher)]
    case _ => [Str(subject), Str(Either(bookTitle, topic)), Str(materialType)]
  }

  /** `buildMaterialTitle`: the distinct parts joined with single spaces. */
  function BuildMaterialTitle(data: MaterialDisplayData, candidates: string -> seq<string>): (r: string)
    ensures DisplayNormal(r)
  {
    var parts := UniqueParts(TitleParts(data, candidates));
    UniquePartsNormal(TitleParts(data, candidates));
    JoinDisplayNormal(parts, " ");
    Join(parts, " ")
  }

  /** When the title parts of a school exam, its subject and then its topic (or
      the stored topic, or the material type), are distinct usable texts, the title
      is exactly the two joined by a space. */
  lemma SchoolExamTitleParts(data: MaterialDisplayData, candidates: string -> seq<string>)
    requires ResolveSourceCategory(data) == SchoolExam
    requires DistinctUsable(TitleParts(data, candidates))
    ensures var subject := NormalizeDisplayText(data.subject);
      var topic := TopicForDisplay(data.topic, Str(subject), candidates);
      var second := Either(topic, Either(NormalizeDisplayText(data.topic), NormalizeDisplayText(data.materialType)));
      BuildMaterialTitle(data, candidates)
        == NormalizeDisplayText(Str(subject)) + " " + NormalizeDisplayText(Str(second))
  {
    var parts := TitleParts(data, candidates);
    UniquePartsAllKept(parts);
    assert |parts| == 2;
    assert Join(NormalizeAll(parts), " ") == NormalizeAll(parts)[0] + " " + NormalizeAll(parts)[1];
  }

  /** Whatever the category, a title whose parts are distinct usable texts lists every
      part, normalised, in the order of `TitleParts`. */
  lemma TitleShowsEveryPart(data: MaterialDisplayData, candidates: string -> seq<string>)
    requires DistinctUsable(TitleParts(data, candidates))
    ensures BuildMaterialTitle(data, candidates) == Join(NormalizeAll(TitleParts(data, candidates)), " ")
  {
    UniquePartsAllKept(TitleParts(data, candidates));
  }

  /** A school exam's title starts with its subject whenever the subject has text (here,
      text without a middle dot). */
  lemma SchoolExamTitleLeadsWithSubject(data: MaterialDisplayData, candidates: string -> seq<string>)
    requires ResolveSourceCategory(data) == SchoolExam
    requires NormalizeDisplayText(data.subject) != "" && ToCompareKey(NormalizeDisplayText(data.subject)) != ""
    requires '·' !in NormalizeDisplayText(data.subject)
    ensures StartsWith(BuildMaterialTitle(data, candidates), NormalizeDisplayText(data.subject))
  {
    var subject := NormalizeDisplayText(data.subject);
    var parts := TitleParts(data, candidates);
    assert parts != [] && parts[0] == Str(subject);
    NormalizeDisplayTextNormal(data.subject);
    JoinLeadsWith(parts, subject);
  }

  /** Parts that start with display-normal text without a middle dot are joined into
      text that starts with it. */
  lemma JoinLeadsWith(parts: seq<JsValue>, subject: string)
    requires parts != [] && parts[0] == Str(subject)
    requires DisplayNormal(subject) && '·' !in subject && subject != "" && ToCompareKey(subject) != ""
    ensures StartsWith(Join(UniqueParts(parts), " "), subject)
  {
    assert NormalizeDisplayText(parts[0]) == subject by {
      NormalTextIsFixed(subject);
    }
    var u := UniqueParts(parts);
    assert u != [] && u[0] == subject by {
      FirstUsablePartLeads(parts);
    }
    UniquePartsNormal(parts);
    JoinDisplayNormal(u, " ");
  }

  // ---------------------------------------------------------------- subline and name parts

  /** The candidate parts of the subline, before de-duplication. */
  function SublineParts(data: MaterialDisplayData, candidates: string -> seq<string>): (parts: seq<JsValue>)
    ensures |parts| <= 5
  {
    var year := NumberLabel(data.year, "년");
    var grade := NumberLabel(data.gradeNumber, "학년");
    var semester := NumberLabel(data.semester, "학기");
    var subject := NormalizeDisplayText(data.subject);
    var topic := TopicForDisplay(data.topic, Str(subject), candidates);
    var schoolName := NormalizeDisplayText(data.schoolName);
    var schoolLevel := NormalizeDisplayText(data.schoolLevel);
    var bookTitle := NormalizeDisplayText(data.bookTitle);
    var publisher := NormalizeDisplayText(data.publisher);
    match ResolveSourceCategory(data)
    case SchoolExam => [Str(schoolName), Str(year), Str(grade), Str(semester), Str(schoolLevel)]
    case Ebook => [Str(publisher), Str(year), Str(StripLeadingDisplayHint(topic, bookTitle))]
    case _ => [Str(publisher), Str(schoolLevel), Str(year), Str(grade), Str(topic)]
  }

  /** `buildMaterialSubline`: the distinct parts joined with " · ". */
  function BuildMaterialSubline(data: MaterialDisplayData, candidates: string -> seq<string>): (r: string)
    ensures DisplayNormal(r)
  {
    var parts := UniqueParts(SublineParts(data, candidates));
    UniquePartsNormal(SublineParts(data, candidates));
    JoinDisplayNormal(parts, " · ");
    Join(parts, " · ")
  }

  /** A subline whose parts are distinct usable texts lists every part, normalised,
      in the order of `SublineParts`, separated by " · ". */
  lemma SublineShowsEveryPart(data: MaterialDisplayData, candidates: string -> seq<string>)
    requires DistinctUsable(SublineParts(data, candidates))
    ensures BuildMaterialSubline(data, candidates) == Join(NormalizeAll(SublineParts(data, candidates)), " · ")
  {
    UniquePartsAllKept(SublineParts(data, candidates));
  }

  /** `.filter(Boolean)`: the truthy values, and all of them when none is falsy. */
  function FilterTruthy(vs: seq<JsValue>): (r: seq<JsValue>)
    ensures |r| <= |vs|
    ensures forall x :: x in r <==> x in vs && Truthy(x)
    ensures (forall i :: 0 <= i < |vs| ==> Truthy(vs[i])) ==> r == vs
  {
    if vs == [] then []
    else (if Truthy(vs[0]) then [vs[0]] else []) + FilterTruthy(vs[1..])
  }

  /** Filtering works piece by piece, so the kept values stay in their order. */
  lemma {:induction false} FilterTruthyConcat(a: seq<JsValue>, b: seq<JsValue>)
    ensures FilterTruthy(a + b) == FilterTruthy(a) + FilterTruthy(b)
  {
    if a == [] {
      assert a + b == b;
    } else {
      assert (a + b)[0] == a[0];
      assert (a + b)[1..] == a[1..] + b;
      FilterTruthyConcat(a[1..], b);
    }
  }

  /** A falsy value is left out and the values around it keep their order. */
  lemma FilterTruthyDropsFalsy(a: seq<JsValue>, x: JsValue, b: seq<JsValue>)
    requires !Truthy(x)
    ensures FilterTruthy(a + [x] + b) == FilterTruthy(a) + FilterTruthy(b)
  {
    var none: seq<JsValue> := [];
    assert FilterTruthy([x]) == none by {
      assert [x][1..] == none;
    }
    calc {
      FilterTruthy(a + [x] + b);
      { FilterTruthyConcat(a + [x], b); }
      FilterTruthy(a + [x]) + FilterTruthy(b);
      { FilterTruthyConcat(a, [x]); }
      FilterTruthy(a) + none + FilterTruthy(b);
    }
    assert FilterTruthy(a) + none == FilterTruthy(a);
  }

  /** The fields that name a material of category `c`, in the order they are shown. */
  function NameFields(c: SourceCategory, data: MaterialDisplayData): seq<JsValue> {
    var year := Str(NumberLabel(data.year, "년"));
    var grade := Str(NumberLabel(data.gradeNumber, "학년"));
    var semester := Str(NumberLabel(data.semester, "학기"));
    match c
    case SchoolExam => [data.schoolName, year, grade, semester, data.subject, data.topic]
    case Ebook => [data.bookTitle, data.topic, data.publisher, year]
    case _ => [data.publisher, data.schoolLevel, year, grade, data.subject, data.bookTitle, data.topic]
  }

  /** `buildMaterialNameParts`: the raw fields and number labels of the category, without
      the falsy ones. */
  function BuildMaterialNameParts(data: MaterialDisplayData): (r: seq<JsValue>)
    ensures forall x :: x in r ==> Truthy(x)
    ensures ResolveSourceCategory(data) == Ebook ==> |r| <= 4
    ensures |r| <= 7
  {
    FilterTruthy(NameFields(ResolveSourceCategory(data), data))
  }

  /** A school exam with every field set is named by its school, year, grade,
      semester, subject and topic, in that order. */
  lemma SchoolExamNameOfFullData(data: MaterialDisplayData)
    requires ResolveSourceCategory(data) == SchoolExam
    requires Truthy(data.schoolName) && Truthy(data.subject) && Truthy(data.topic)
    requires data.year.Some? && data.year.value != 0 && data.gradeNumber.Some? && data.gradeNumber.value != 0
    requires data.semester.Some? && data.semester.value != 0
    ensures BuildMaterialNameParts(data) == [data.schoolName, Str(IntToString(data.year.value) + "년"),
      Str(IntToString(data.gradeNumber.value) + "학년"), Str(IntToString(data.semester.value) + "학기"),
      data.subject, data.topic]
  {
    SchoolExamNameFields(ResolveSourceCategory(data), data);
  }

  lemma SchoolExamNameFields(c: SourceCategory, data: MaterialDisplayData)
    requires c == SchoolExam
    requires Truthy(data.schoolName) && Truthy(data.subject) && Truthy(data.topic)
    requires data.year.Some? && data.year.value != 0 && data.gradeNumber.Some? && data.gradeNumber.value != 0
    requires data.semester.Some? && data.semester.value != 0
    ensures FilterTruthy(NameFields(c, data)) == [data.schoolName, Str(IntToString(data.year.value) + "년"),
      Str(IntToString(data.gradeNumber.value) + "학년"), Str(IntToString(data.semester.value) + "학기"),
      data.subject, data.topic]
  {
    var vs := NameFields(c, data);
    assert forall i :: 0 <= i < |vs| ==> Truthy(vs[i]);
  }

  /** An e-book with every field set is named by its book title, topic, publisher
      and year, in that order. */
  lemma EbookNameOfFullData(data: MaterialDisplayData)
    requires ResolveSourceCategory(data) == Ebook
    requires Truthy(data.bookTitle) && Truthy(data.topic) && Truthy(data.publisher)
    requires data.year.Some? && data.year.value != 0
    ensures BuildMaterialNameParts(data) == [data.bookTitle, data.topic, data.publisher, Str(IntToString(data.year.value) + "년")]
  {
    EbookNameFields(ResolveSourceCategory(data), data);
  }

  lemma EbookNameFields(c: SourceCategory, data: MaterialDisplayData)
    requires c == Ebook
    requires Truthy(data.bookTitle) && Truthy(data.topic) && Truthy(data.publisher)
    requires data.year.Some? && data.year.value != 0
    ensures FilterTruthy(NameFields(c, data)) == [data.bookTitle, data.topic, data.publisher, Str(IntToString(data.year.value) + "년")]
  {
    var vs := NameFields(c, data);
    assert forall i :: 0 <= i < |vs| ==> Truthy(vs[i]);
  }

  /** A textbook or reference material with every field set is named by its
      publisher, school level, year, grade, subject, book title and topic, in that
      order. */
  lemma BookNameOfFullData(data: MaterialDisplayData)
    requires ResolveSourceCategory(data) != SchoolExam && ResolveSourceCategory(data) != Ebook
    requires Truthy(data.publisher) && Truthy(data.schoolLevel) && Truthy(data.subject)
    requires Truthy(data.bookTitle) && Truthy(data.topic)
    requires data.year.Some? && data.year.value != 0 && data.gradeNumber.Some? && data.gradeNumber.value != 0
    ensures BuildMaterialNameParts(data) == [data.publisher, data.schoolLevel, Str(IntToString(data.year.value) + "년"),
      Str(IntToString(data.gradeNumber.value) + "학년"), data.subject, data.bookTitle, data.topic]
  {
    BookNameFields(ResolveSourceCategory(data), data);
  }

  lemma BookNameFields(c: SourceCategory, data: MaterialDisplayData)
    requires c == Textbook || c == Reference
    requires Truthy(data.publisher) && Truthy(data.schoolLevel) && Truthy(data.subject)
    requires Truthy(data.bookTitle) && Truthy(data.topic)
    requires data.year.Some? && data.year.value != 0 && data.gradeNumber.Some? && data.gradeNumber.value != 0
    ensures FilterTruthy(NameFields(c, data)) == [data.publisher, data.schoolLevel, Str(IntToString(data.year.value) + "년"),
      Str(IntToString(data.gradeNumber.value) + "학년"), data.subject, data.bookTitle, data.topic]
  {
    var vs := NameFields(c, data);
    assert forall i :: 0 <= i < |vs| ==> Truthy(vs[i]);
  }

  /** An e-book without a topic is named by its book title, publisher and year. */
  lemma EbookNameWithoutTopic(data: MaterialDisplayData)
    requires ResolveSourceCategory(data) == Ebook && !Truthy(data.topic)
    ensures var year := Str(NumberLabel(data.year, "년"));
      BuildMaterialNameParts(data) == FilterTruthy([data.bookTitle]) + FilterTruthy([data.publisher, year])
  {
    EbookNameFieldsWithoutTopic(ResolveSourceCategory(data), data);
  }

  lemma EbookNameFieldsWithoutTopic(c: SourceCategory, data: MaterialDisplayData)
    requires c == Ebook && !Truthy(data.topic)
    ensures var year := Str(NumberLabel(data.year, "년"));
      FilterTruthy(NameFields(c, data)) == FilterTruthy([data.bookTitle]) + FilterTruthy([data.publisher, year])
  {
    var year := Str(NumberLabel(data.year, "년"));
    assert NameFields(c, data) == [data.bookTitle] + [data.topic] + [data.publisher, year];
    FilterTruthyDropsFalsy([data.bookTitle], data.topic, [data.publisher, year]);
  }
}
