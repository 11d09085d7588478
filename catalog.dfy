/**
 * The gallery's image records and the static catalog the page starts from.
 */
module Catalog {
  import opened Wrappers

  /** Where a picture was published. */
  datatype Source = Website | Instagram

  /**
   * One catalog entry. `sourceUrl` and `retryCount` are optional fields of the
   * record type: every catalog entry has a `sourceUrl`, none has a `retryCount`
   * until the retry action writes 0 into all of them.
   */
  datatype GalleryImage = GalleryImage(
    id: nat,
    src: string,
    alt: string,
    category: string,
    description: string,
    source: Source,
    sourceUrl: Option<string>,
    retryCount: Option<nat>)

  /** The category filter values; "All" is the synthetic "no filter" value. */
  const Categories: seq<string> :=
    ["All", "Team Vibes", "Creative Campaigns", "Work Hard, Play Hard", "Behind-The-Scenes"]

  const SiteUrl: string := "https://collegetips.in"
  const InstagramUrl: string := "https://www.instagram.com/collegetips.in/"

  /** The nine records the page is mounted with, in display order. */
  const GalleryImages: seq<GalleryImage> := [
    GalleryImage(1, "/assets/images/collegetips-team.jpg", "CollegeTips Team", "Team Vibes",
      "Our dedicated team working together to help students succeed", Website, Some(SiteUrl), None),
    GalleryImage(2, "/assets/images/collegetips-mentorship.jpg", "Mentorship Program", "Team Vibes",
      "One-on-one mentorship sessions with our experts", Website, Some(SiteUrl), None),
    GalleryImage(3, "/assets/images/collegetips-workshop.jpg", "Student Workshop", "Creative Campaigns",
      "Interactive workshops for student success", Website, Some(SiteUrl), None),
    GalleryImage(4, "/assets/images/collegetips-event.jpg", "CollegeTips Event", "Work Hard, Play Hard",
      "Celebrating student achievements at our annual event", Website, Some(SiteUrl), None),
    GalleryImage(5, "/assets/images/collegetips-campaign.jpg", "Student Success Campaign", "Creative Campaigns",
      "Launching our latest student success campaign", Website, Some(SiteUrl), None),
    GalleryImage(6, "/assets/images/collegetips-community.jpg", "CollegeTips Community", "Behind-The-Scenes",
      "Building a strong community of learners", Website, Some(SiteUrl), None),
    GalleryImage(7,
      "/assets/images/collegetips-instagram-1_files/433726860_3785103398389409_9190250942546798068_n.jpg",
      "Instagram Post - Student Success Story", "Team Vibes",
      "Real student success stories from our community", Instagram, Some(InstagramUrl), None),
    GalleryImage(8, "/assets/images/collegetips-study-group.jpg", "Study Group Session", "Work Hard, Play Hard",
      "Students collaborating in our interactive study groups", Website, Some(SiteUrl), None),
    GalleryImage(9, "/assets/images/collegetips-success-story.jpg", "Student Success Story", "Creative Campaigns",
      "Celebrating student achievements and success stories", Instagram, Some(InstagramUrl), None)
  ]

  /** No two records share an id. */
  predicate UniqueIds(images: seq<GalleryImage>)
  {
    forall i, j :: 0 <= i < j < |images| ==> images[i].id != images[j].id
  }

  /** Two records agree on everything but the retry bookkeeping. */
  predicate SameEntry(a: GalleryImage, b: GalleryImage)
  {
    a.id == b.id && a.src == b.src && a.alt == b.alt && a.category == b.category
    && a.description == b.description && a.source == b.source && a.sourceUrl == b.sourceUrl
  }

  /** Two record lists agree position by position on everything but the retry bookkeeping. */
  predicate SameEntries(a: seq<GalleryImage>, b: seq<GalleryImage>)
  {
    |a| == |b| && forall i :: 0 <= i < |a| ==> SameEntry(a[i], b[i])
  }

  lemma SameEntriesReflexive(a: seq<GalleryImage>)
    ensures SameEntries(a, a)
  {
  }

  /** Every record's category is one of the real (non-"All") filter values. */
  predicate CategoriesKnown(images: seq<GalleryImage>)
  {
    forall i :: 0 <= i < |images| ==> images[i].category in Categories[1..]
  }

  /** The catalog's ids are 1 to 9 in order, hence unique and positive. */
  lemma CatalogIds()
    ensures |GalleryImages| == 9
    ensures forall i :: 0 <= i < |GalleryImages| ==> GalleryImages[i].id == i + 1
    ensures UniqueIds(GalleryImages)
  {
  }

  /** The catalog uses only the real categories, and every record has an attribution link. */
  lemma CatalogWellFormed()
    ensures CategoriesKnown(GalleryImages)
    ensures forall i :: 0 <= i < |GalleryImages| ==> GalleryImages[i].sourceUrl.Some?
    ensures forall i :: 0 <= i < |GalleryImages| ==> GalleryImages[i].retryCount == None
  {
  }
}
