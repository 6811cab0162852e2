/** The game's configuration: the loss and win thresholds and the image list. */
module Constants {
  import opened CardImage

  /** Failed attempts after which the game is over. */
  const MaxFailedCounter: nat := 5

  /** Good matches after which the game is won. */
  const MaxGoodMatchCounter: nat := 6

  // The six imported dog pictures.
  const Dog1: Src := "/src/assets/images/dog-1.jpg"
  const Dog2: Src := "/src/assets/images/dog-2.jpg"
  const Dog3: Src := "/src/assets/images/dog-3.jpg"
  const Dog4: Src := "/src/assets/images/dog-4.jpg"
  const Dog5: Src := "/src/assets/images/dog-5.jpg"
  const Dog6: Src := "/src/assets/images/dog-6.jpg"

  /** One entry per picture, all face down and selectable. */
  const CardImages: seq<ImageEntry> := [
    ImageEntry(Dog1, false, false, false),
    ImageEntry(Dog2, false, false, false),
    ImageEntry(Dog3, false, false, false),
    ImageEntry(Dog4, false, false, false),
    ImageEntry(Dog5, false, false, false),
    ImageEntry(Dog6, false, false, false)
  ]

  /** The win threshold is the number of pairs in the deck. */
  lemma WinThresholdIsPairCount()
    ensures |CardImages| == MaxGoodMatchCounter
  {
  }

  lemma CardImagesStartHidden()
    ensures forall i :: 0 <= i < |CardImages| ==> Hidden(CardImages[i])
  {
  }

  /** The six pictures are different images. */
  lemma CardImageSourcesDistinct()
    ensures Distinct(EntrySrcs(CardImages))
  {
  }
}
