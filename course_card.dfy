/** A published course as the backend returns it, the card the `CourseCard`
    component receives, and `formatCourseForCard`, which both pages define with
    the same body. */
module CourseCard {
  import opened JsValues

  /** A course record. Optional fields are None when absent or null; the title is
      always present. Students and lectures are identifiers. */
  datatype Course = Course(
    id: JsText,
    courseTitle: JsText,
    subTitle: Option<JsText>,
    description: Option<JsText>,
    courseThumbnail: Option<JsText>,
    category: Option<JsText>,
    enrolledStudents: Option<seq<JsText>>,
    lectures: Option<seq<JsText>>)

  datatype Card = Card(
    id: JsText,
    title: JsText,
    description: JsText,
    image: JsText,
    category: Option<JsText>,
    enrolled: nat,
    lectureCount: nat)

  const DescriptionLimit: nat := 120
  const NoDescription: JsText := BmpText("No description available")
  const PlaceholderImage: JsText := BmpText("https://via.placeholder.com/640x360?text=Course+Thumbnail")

  /** `s.slice(0, n)`: the first `n` code units, or all of them. */
  function Slice(s: JsText, n: nat): JsText {
    s[..Min(n, |s|)]
  }

  /** The card for one course: identity, title and category copied; the
      description is the subtitle, else the first 120 code units of the
      description, else a fixed text, and is never empty; the image falls back to
      a placeholder; the counts are the array lengths, 0 when an array is absent. */
  function FormatCourseForCard(c: Course): (card: Card)
    ensures card.id == c.id && card.title == c.courseTitle && card.category == c.category
    ensures card.description != []
    ensures TruthyString(c.subTitle) ==> card.description == c.subTitle.value
    ensures !TruthyString(c.subTitle) && TruthyString(c.description) ==>
              card.description <= c.description.value &&
              |card.description| == Min(DescriptionLimit, |c.description.value|)
    ensures !TruthyString(c.subTitle) && !TruthyString(c.description) ==>
              card.description == NoDescription
    ensures card.image != []
    ensures TruthyString(c.courseThumbnail) ==> card.image == c.courseThumbnail.value
    ensures !TruthyString(c.courseThumbnail) ==> card.image == PlaceholderImage
    ensures c.enrolledStudents.Some? ==> card.enrolled == |c.enrolledStudents.value|
    ensures c.enrolledStudents.None? ==> card.enrolled == 0
    ensures c.lectures.Some? ==> card.lectureCount == |c.lectures.value|
    ensures c.lectures.None? ==> card.lectureCount == 0
  {
    var excerpt := if c.description.Some? then Some(Slice(c.description.value, DescriptionLimit)) else None;
    Card(
      c.id,
      c.courseTitle,
      if TruthyString(c.subTitle) then c.subTitle.value
      else if TruthyString(excerpt) then excerpt.value
      else NoDescription,
      if TruthyString(c.courseThumbnail) then c.courseThumbnail.value else PlaceholderImage,
      c.category,
      LengthOrZero(c.enrolledStudents),
      LengthOrZero(c.lectures))
  }

  /** The excerpt counts UTF-16 code units, as `slice` does: after "a" and sixty
      surrogate pairs (121 code units) it keeps 120 units, so it ends in a high
      surrogate whose low half was cut off. */
  lemma ExcerptCountsCodeUnits()
    ensures var pairs := seq(120, i => if i % 2 == 0 then 0xD83D as CodeUnit else 0xDE00 as CodeUnit);
      var c := Course([], [], None, Some([0x61 as CodeUnit] + pairs), None, None, None, None);
      |FormatCourseForCard(c).description| == 120 &&
      FormatCourseForCard(c).description[119] == 0xD83D
  {
  }

  /** `courses.map(formatCourseForCard)`: one card per course, in order. */
  function CardsOf(courses: seq<Course>): (cards: seq<Card>)
    ensures |cards| == |courses|
    ensures forall i :: 0 <= i < |courses| ==> cards[i] == FormatCourseForCard(courses[i])
  {
    if courses == [] then [] else [FormatCourseForCard(courses[0])] + CardsOf(courses[1..])
  }
}
