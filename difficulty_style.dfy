/**
 * The badge colour classes for a material's difficulty: a fixed table of
 * Tailwind class strings per badge variant and colour tone, with blue for
 * any tone the table does not know.
 */
module DifficultyStyle {
  import opened Optional

  datatype Tone = Emerald | Blue | Violet | Orange | Red

  datatype Variant = SoftOutline | StrongOutline | MixedTint | SoftTint

  const DefaultTone := Blue
  const DefaultVariant := SoftOutline

  /** The tone a string names, if it names one. */
  function ToneOf(value: string): (t: Option<Tone>)
    ensures t.Some? <==> IsDifficultyTone(value)
  {
    if value == "emerald" then Some(Emerald)
    else if value == "blue" then Some(Blue)
    else if value == "violet" then Some(Violet)
    else if value == "orange" then Some(Orange)
    else if value == "red" then Some(Red)
    else None
  }

  function ToneName(t: Tone): string {
    match t
    case Emerald => "emerald"
    case Blue => "blue"
    case Violet => "violet"
    case Orange => "orange"
    case Red => "red"
  }

  /** `isDifficultyTone`. */
  predicate IsDifficultyTone(value: string) {
    value in {"emerald", "blue", "violet", "orange", "red"}
  }

  /** Every tone's name is recognised as that tone, and nothing else is a tone. */
  lemma ToneNameRoundTrip(t: Tone)
    ensures ToneOf(ToneName(t)) == Some(t)
  {
  }

  /** `DIFFICULTY_BADGE_CLASS[variant][tone]`. */
  function BadgeClass(variant: Variant, tone: Tone): string {
    match variant
    case SoftOutline =>
      (match tone
       case Emerald => "bg-emerald-50 text-emerald-600 border-emerald-200"
       case Blue => "bg-blue-50 text-blue-600 border-blue-100"
       case Violet => "bg-violet-50 text-violet-700 border-violet-200"
       case Orange => "bg-orange-50 text-orange-700 border-orange-200"
       case Red => "bg-red-50 text-red-700 border-red-200")
    case StrongOutline =>
      (match tone
       case Emerald => "bg-emerald-100 text-emerald-700 border border-emerald-200"
       case Blue => "bg-blue-100 text-blue-700 border border-blue-200"
       case Violet => "bg-violet-100 text-violet-700 border border-violet-200"
       case Orange => "bg-orange-100 text-orange-700 border border-orange-200"
       case Red => "bg-red-100 text-red-700 border border-red-200")
    case MixedTint =>
      (match tone
       case Emerald => "bg-emerald-100 text-emerald-700"
       case Blue => "bg-blue-50 text-blue-600"
       case Violet => "bg-violet-100 text-violet-700"
       case Orange => "bg-orange-100 text-orange-700"
       case Red => "bg-red-100 text-red-700")
    case SoftTint =>
      (match tone
       case Emerald => "bg-emerald-50 text-emerald-600"
       case Blue => "bg-blue-50 text-blue-600"
       case Violet => "bg-violet-50 text-violet-700"
       case Orange => "bg-orange-50 text-orange-700"
       case Red => "bg-red-50 text-red-700")
  }

  /** `getDifficultyBadgeClass(tone, variant)`; `None` is a null or undefined tone. A call
      without a variant passes `DefaultVariant`. */
  function GetDifficultyBadgeClass(tone: Option<string>, variant: Variant): (r: string)
    ensures tone.Some? && IsDifficultyTone(tone.value) ==> r == BadgeClass(variant, ToneOf(tone.value).value)
    ensures tone.None? || !IsDifficultyTone(tone.value) ==> r == BadgeClass(variant, DefaultTone)
  {
    if tone.Some? && tone.value != "" && ToneOf(tone.value).Some? then BadgeClass(variant, ToneOf(tone.value).value)
    else BadgeClass(variant, DefaultTone)
  }

  /** `MATERIAL_LIST_DIFF_STYLE`: the strong-outline row of the table. */
  function MaterialListDiffStyle(tone: Tone): (r: string)
    ensures r == GetDifficultyBadgeClass(Some(ToneName(tone)), StrongOutline)
  {
    BadgeClass(StrongOutline, tone)
  }

  /** The empty string is not a tone, so it falls back to blue like a missing tone. */
  lemma EmptyToneIsBlue(variant: Variant)
    ensures GetDifficultyBadgeClass(Some(""), variant) == GetDifficultyBadgeClass(None, variant)
  {
  }
}
