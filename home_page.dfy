/** The home page's course section: the first six fetched courses, each shown as a card. */
module HomePage {
  import opened JsValues
  import opened CourseCard

  const FeaturedCount: nat := 6

  /** `courses.slice(0, 6)`: the leading courses, at most six, in order; all of
      them when there are fewer than six. */
  function FeaturedCourses(courses: seq<Course>): (r: seq<Course>)
    ensures r <= courses
    ensures |r| == Min(FeaturedCount, |courses|)
    ensures |courses| <= FeaturedCount ==> r == courses
  {
    courses[..Min(FeaturedCount, |courses|)]
  }

  /** `courses.slice(0, 6).map(formatCourseForCard)` */
  function FeaturedCards(courses: seq<Course>): (cards: seq<Card>)
    ensures |cards| <= FeaturedCount && |cards| == Min(FeaturedCount, |courses|)
    ensures forall i :: 0 <= i < |cards| ==> cards[i] == FormatCourseForCard(courses[i])
  {
    CardsOf(FeaturedCourses(courses))
  }

  /** Every card on the home page carries the id, title and category of the
      course at the same position, a non-empty description from the fallback
      chain, a non-empty image and the array lengths as counts. */
  lemma FeaturedCardsFollowCourses(courses: seq<Course>, i: nat)
    requires i < |FeaturedCards(courses)|
    ensures var card, c := FeaturedCards(courses)[i], courses[i];
      && card.id == c.id && card.title == c.courseTitle && card.category == c.category
      && card.description != [] && card.image != []
      && (TruthyString(c.subTitle) ==> card.description == c.subTitle.value)
      && (!TruthyString(c.subTitle) && TruthyString(c.description) ==>
            card.description <= c.description.value && |card.description| <= DescriptionLimit)
      && (!TruthyString(c.subTitle) && !TruthyString(c.description) ==> card.description == NoDescription)
      && (!TruthyString(c.courseThumbnail) ==> card.image == PlaceholderImage)
      && card.enrolled == LengthOrZero(c.enrolledStudents)
      && card.lectureCount == LengthOrZero(c.lectures)
  {
  }
}
