/** The client's view of one prediction (`PredictionResult` in
    `front-end/src/App.tsx`) and the tag normalisation that
    `PredictPage.tsx` and `PredictionHistoryPage.tsx` both define. */
module ViewModel {
  import opened Wrappers
  import Text

  type Time = int

  /** A JSON value as the client receives it: a string, or anything else
      (`undefined`, `null`, a number, an object). */
  datatype JsValue = JsString(s: string) | JsOther

  /** `PredictionTag`. */
  datatype Tag = Fruit | Vegetable | Unknown

  function TagName(t: Tag): string {
    match t
    case Fruit => "fruit"
    case Vegetable => "vegetable"
    case Unknown => "unknown"
  }

  /** `normalizeTag`: a string whose trimmed, lower-cased form is `fruit` or
      `vegetable` gives that tag; everything else is `unknown`. */
  function NormalizeTag(v: JsValue): (t: Tag)
    ensures t == Fruit <==> v.JsString? && Text.Lower(Text.Trim(v.s)) == "fruit"
    ensures t == Vegetable <==> v.JsString? && Text.Lower(Text.Trim(v.s)) == "vegetable"
    ensures t == Unknown <==>
      v.JsOther? || (Text.Lower(Text.Trim(v.s)) != "fruit" && Text.Lower(Text.Trim(v.s)) != "vegetable")
  {
    var normalized := if v.JsString? then Text.Lower(Text.Trim(v.s)) else "";
    if normalized == "fruit" then Fruit
    else if normalized == "vegetable" then Vegetable
    else Unknown
  }

  /** A tag's own name is already in normal form. */
  lemma TagNameNormal(t: Tag)
    ensures Text.Trim(TagName(t)) == TagName(t)
    ensures Text.Lower(TagName(t)) == TagName(t)
  {
    Text.LowerWordNormal(TagName(t));
  }

  /** Normalising a tag's name gives the tag back. */
  lemma NormalizeTagName(t: Tag)
    ensures NormalizeTag(JsString(TagName(t))) == t
  {
    TagNameNormal(t);
  }

  /** `normalizeTag` is idempotent on the tags it produces. */
  lemma NormalizeTagIdempotent(v: JsValue)
    ensures NormalizeTag(JsString(TagName(NormalizeTag(v)))) == NormalizeTag(v)
  {
    NormalizeTagName(NormalizeTag(v));
  }

  /** `tagToCategory`. */
  function TagToCategory(t: Tag): (c: string)
    ensures c == "Vegetable" <==> t == Vegetable
    ensures c == "Fruit" <==> t == Fruit
    ensures c == "General" <==> t == Unknown
  {
    match t
    case Vegetable => "Vegetable"
    case Fruit => "Fruit"
    case Unknown => "General"
  }

  /** Distinct tags are shown under distinct categories. */
  lemma TagToCategoryInjective(t1: Tag, t2: Tag)
    requires TagToCategory(t1) == TagToCategory(t2)
    ensures t1 == t2
  {
  }

  /** The label shown for a prediction: `label || 'Unknown'`. */
  function FruitName(given: Option<string>): (r: string)
    ensures r != ""
    ensures Text.Truthy(given) ==> r == given.value
    ensures !Text.Truthy(given) ==> r == "Unknown"
  {
    Text.OrElse(given, "Unknown")
  }

  /** A shown name fed back in is shown unchanged, and the names shown for
      two labels differ only when a label differs. */
  lemma FruitNameStable(given: Option<string>, other: Option<string>)
    ensures FruitName(Some(FruitName(given))) == FruitName(given)
    ensures Text.Truthy(given) && Text.Truthy(other) && given != other ==> FruitName(given) != FruitName(other)
  {
  }

  /** `PredictionResult`, without the confidence and the placeholder
      nutrition and price fields. `tag` is `None` where the page does not
      set it. */
  datatype PredictionResult = PredictionResult(
    id: string, fruitName: string, imageUrl: string, timestamp: Time,
    tag: Option<Tag>, category: string)
}
