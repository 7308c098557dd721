/** The string helpers of the shared utility module: `wordSlicer` and `capitalizedText`. */
module TextUtils {
  import JsText

  /** The longest title shown in full. */
  const SliceLength := 65
  /** What replaces the cut-off tail of a long title. */
  const Ellipsis := " ..."

  /** `wordSlicer`: a title longer than 65 characters is cut to 65 and marked with " ...". */
  function WordSlicer(word: string): (r: string)
    ensures |word| <= SliceLength ==> r == word
    ensures |word| > SliceLength ==> |r| == SliceLength + |Ellipsis|
  {
    if |word| <= SliceLength then word else word[..SliceLength] + Ellipsis
  }

  /** The first 65 characters always survive, the result never exceeds 69 characters,
      and anything cut off is marked by the trailing " ...". */
  lemma WordSlicerShape(word: string)
    ensures |WordSlicer(word)| <= SliceLength + |Ellipsis|
    ensures |word| <= SliceLength ==> WordSlicer(word) == word
    ensures |word| > SliceLength ==>
      JsText.StartsWith(WordSlicer(word), word[..SliceLength])
      && WordSlicer(word)[SliceLength..] == Ellipsis
  {
  }

  /** Slicing an already sliced title changes nothing. */
  lemma WordSlicerIdempotent(word: string)
    ensures WordSlicer(WordSlicer(word)) == WordSlicer(word)
  {
    if |word| > SliceLength {
      var r := WordSlicer(word);
      assert r[..SliceLength] == word[..SliceLength];
    }
  }

  /** `capitalizedText`: the first character upper-cased, the rest lower-cased. */
  function CapitalizedText(text: string): (r: string)
    ensures |r| == |text|
    ensures text != [] ==> r[0] == JsText.ToUpperAscii(text[0])
    ensures forall i :: 0 < i < |text| ==> r[i] == JsText.ToLowerAscii(text[i])
  {
    if text == [] then [] else [JsText.ToUpperAscii(text[0])] + JsText.LowerAscii(text[1..])
  }

  lemma UpperIdempotent(c: char)
    ensures JsText.ToUpperAscii(JsText.ToUpperAscii(c)) == JsText.ToUpperAscii(c)
  {
  }

  lemma LowerIdempotent(c: char)
    ensures JsText.ToLowerAscii(JsText.ToLowerAscii(c)) == JsText.ToLowerAscii(c)
  {
  }

  /** Capitalising maps "" to "", and capitalising twice is capitalising once. */
  lemma CapitalizedTextIdempotent(text: string)
    ensures CapitalizedText([]) == []
    ensures CapitalizedText(CapitalizedText(text)) == CapitalizedText(text)
  {
    var r := CapitalizedText(text);
    var rr := CapitalizedText(r);
    if text != [] {
      UpperIdempotent(text[0]);
      forall i | 0 < i < |text|
        ensures rr[i] == r[i]
      {
        LowerIdempotent(text[i]);
      }
    }
  }

  /** After capitalising, no letter but the first is upper case and the first is not lower case. */
  lemma CapitalizedTextCase(text: string)
    ensures var r := CapitalizedText(text);
      (r != [] ==> !('a' <= r[0] <= 'z'))
      && forall i :: 0 < i < |r| ==> !('A' <= r[i] <= 'Z')
  {
  }
}
