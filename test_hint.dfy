/**
 * The stand-alone check of the category rule kept beside the site: the stored
 * category, the material type and the subject decide the category, with only
 * the Korean word for "ebook" as an ebook sign.
 */
module TestHint {
  import opened JsCore
  import opened MaterialCatalog
  import ApiHelpers
  import MaterialDisplay
  import opened Optional

  /** `normalizeSourceCategoryWithHint`: the ebook word as the trimmed type or as the raw
      subject wins, then a textbook type, then a reference type, then the stored category. */
  function WithHint(sourceCategory: JsValue, materialType: JsValue, subject: JsValue): (c: SourceCategory)
    ensures ApiHelpers.NormalizeText(materialType) == EbookWord || subject == Str(EbookWord) ==> c == Ebook
    ensures c == Ebook ==>
      ApiHelpers.NormalizeText(materialType) == EbookWord || subject == Str(EbookWord) || sourceCategory == Str("ebook")
    ensures c == Textbook <==>
      (ApiHelpers.NormalizeText(materialType) in TextbookTypes && subject != Str(EbookWord))
      || (sourceCategory == Str("textbook") && ApiHelpers.NormalizeText(materialType) !in ReferenceTypes
          && ApiHelpers.NormalizeText(materialType) != EbookWord && subject != Str(EbookWord))
    ensures ApiHelpers.NormalizeText(materialType) != EbookWord && subject != Str(EbookWord)
      && ApiHelpers.NormalizeText(materialType) !in TextbookTypes && ApiHelpers.NormalizeText(materialType) !in ReferenceTypes
      ==> c == NormalizeSourceCategory(sourceCategory)
  {
    var normalized := NormalizeSourceCategory(sourceCategory);
    var t := ApiHelpers.NormalizeText(materialType);
    if t == EbookWord || subject == Str(EbookWord) then Ebook
    else if t in TextbookTypes then Textbook
    else if t in ReferenceTypes then Reference
    else normalized
  }

  /** The script's own sample: a reference category with a reference type and the
      subject 수학 stays reference. */
  lemma SampleIsReference()
    ensures WithHint(Str("reference"), Str("유형서"), Str("수학")) == Reference
  {
    SampleTypeFacts();
    ReferenceTypeWins(Str("reference"), Str("유형서"), Str("수학"));
  }

  /** Without the ebook word, a type listed only under reference books decides the category. */
  lemma ReferenceTypeWins(sourceCategory: JsValue, materialType: JsValue, subject: JsValue)
    requires ApiHelpers.NormalizeText(materialType) != EbookWord && subject != Str(EbookWord)
    requires ApiHelpers.NormalizeText(materialType) !in TextbookTypes
    requires ApiHelpers.NormalizeText(materialType) in ReferenceTypes
    ensures WithHint(sourceCategory, materialType, subject) == Reference
  {
  }

  /** 유형서 trims to itself, is a reference type only, and is not the ebook word; 수학 is
      not the ebook word either. */
  lemma SampleTypeFacts()
    ensures ApiHelpers.NormalizeText(Str("유형서")) == "유형서"
    ensures "유형서" !in TextbookTypes && "유형서" in ReferenceTypes
    ensures "유형서" != EbookWord && Str("수학") != Str(EbookWord)
  {
    JsText.TrimPlain("유형서");
    SampleTypeListed();
  }

  lemma SampleTypeListed()
    ensures "유형서" !in TextbookTypes && "유형서" in ReferenceTypes
    ensures "유형서" != EbookWord && Str("수학") != Str(EbookWord)
  {
    forall i | 0 <= i < |TextbookTypes|
      ensures TextbookTypes[i] != "유형서"
    {
      assert TextbookTypes[i][0] != "유형서"[0];
    }
    assert ReferenceTypes[1] == "유형서";
    assert "유형서"[0] != EbookWord[0] && "수학"[0] != EbookWord[0];
  }

  /** The display rule and this rule agree on every material whose only possible ebook
      sign is the Korean word as its type or as its exact subject. */
  lemma AgreesWithDisplay(data: MaterialDisplay.MaterialDisplayData)
    requires !data.ebookDescription.Str? && !data.ebookToc.Str? && !data.ebookToc.Arr?
    requires data.subject.Str? && data.subject.s == ApiHelpers.NormalizeText(data.subject)
    requires JsText.ToLower(data.subject.s) != "ebook"
    requires JsText.ToLower(ApiHelpers.NormalizeText(data.materialType)) != "ebook"
    ensures WithHint(data.sourceCategory, data.materialType, data.subject) == MaterialDisplay.ResolveSourceCategory(data)
  {
    SignsAgree(data);
  }

  /** Under the same conditions the display rule sees an ebook sign exactly when the
      type or the subject is the Korean ebook word. */
  lemma SignsAgree(data: MaterialDisplay.MaterialDisplayData)
    requires !data.ebookDescription.Str? && !data.ebookToc.Str? && !data.ebookToc.Arr?
    requires data.subject.Str? && data.subject.s == ApiHelpers.NormalizeText(data.subject)
    requires JsText.ToLower(data.subject.s) != "ebook"
    requires JsText.ToLower(ApiHelpers.NormalizeText(data.materialType)) != "ebook"
    ensures MaterialDisplay.HasEbookHint(data) <==>
      ApiHelpers.NormalizeText(data.materialType) == EbookWord || data.subject == Str(EbookWord)
  {
    var t := ApiHelpers.NormalizeText(data.materialType);
    var sub := data.subject.s;
    assert ApiHelpers.NormalizeText(data.ebookDescription) == "";
    assert !HasNonEmptyEbookToc(data.ebookToc);
    if MaterialDisplay.HasEbookHint(data) {
      if JsText.ToLower(t) == EbookWord {
        LowerEbookWord(t);
      } else {
        LowerEbookWord(sub);
      }
    } else {
      EbookWordPlain();
      assert t != EbookWord && sub != EbookWord;
    }
  }

  /** The only text that lower-cases to the Korean ebook word is that word itself. */
  lemma LowerEbookWord(s: string)
    requires JsText.ToLower(s) == EbookWord
    ensures s == EbookWord
  {
    assert |s| == 3;
    forall i | 0 <= i < 3
      ensures s[i] == EbookWord[i]
    {
      assert JsText.LowerChar(s[i]) == EbookWord[i];
    }
  }

  /** Where the two rules part: the English word "ebook" as the type is an ebook sign
      for the display rule and not for this one. */
  lemma EnglishTypeWordDiffers()
    ensures WithHint(Str("school_exam"), Str("ebook"), Str("수학")) == SchoolExam
    ensures MaterialDisplay.ResolveSourceCategory(EnglishTypeSample()) == Ebook
  {
    EnglishTypeIgnored();
    EnglishTypeIsDisplayHint();
  }

  /** A school-exam material typed "ebook" with the subject 수학, as the display rule sees it. */
  function EnglishTypeSample(): MaterialDisplay.MaterialDisplayData {
    MaterialDisplay.MaterialDisplayData(
      Str("school_exam"), Str("ebook"), Undefined, Undefined, Undefined, Undefined, Undefined,
      Undefined, Str("수학"), Undefined, None, None, None)
  }

  lemma EnglishTypeIgnored()
    ensures WithHint(Str("school_exam"), Str("ebook"), Str("수학")) == SchoolExam
  {
    EnglishTypeFacts();
  }

  /** "ebook" trims to itself, is listed under no category and is not the ebook word; 수학
      is not the ebook word; "school_exam" names the school-exam category. */
  lemma EnglishTypeFacts()
    ensures ApiHelpers.NormalizeText(Str("ebook")) == "ebook"
    ensures "ebook" !in TextbookTypes && "ebook" !in ReferenceTypes
    ensures "ebook" != EbookWord && Str("수학") != Str(EbookWord)
    ensures NormalizeSourceCategory(Str("school_exam")) == SchoolExam
  {
    JsText.TrimPlain("ebook");
    EnglishTypeListed();
  }

  lemma EnglishTypeListed()
    ensures "ebook" !in TextbookTypes && "ebook" !in ReferenceTypes
    ensures "ebook" != EbookWord && Str("수학") != Str(EbookWord)
    ensures NormalizeSourceCategory(Str("school_exam")) == SchoolExam
  {
    AsciiTextNotListedType("ebook");
    assert "ebook"[0] != EbookWord[0];
    assert "수학"[0] != EbookWord[0];
  }

  lemma EnglishTypeIsDisplayHint()
    ensures MaterialDisplay.HasEbookHint(EnglishTypeSample())
  {
    JsText.TrimPlain("ebook");
    assert MaterialDisplay.TypeText(EnglishTypeSample()) == "ebook";
    EnglishWordLowered();
  }

  lemma EnglishWordLowered()
    ensures JsText.ToLower("ebook") == "ebook"
  {
    var lowered := JsText.ToLower("ebook");
    assert lowered[0] == 'e' && lowered[1] == 'b' && lowered[2] == 'o' && lowered[3] == 'o' && lowered[4] == 'k';
  }
}
