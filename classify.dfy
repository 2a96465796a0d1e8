/**
 * Deciding from a directory entry's name whether it is a photo, a video or
 * unsupported: a case-insensitive match of the name's end against two fixed
 * extension lists, photos tested first.
 */
module Classify {

  import opened Ascii

  /** What the run driver makes of a listed name. */
  datatype Kind = Photo | Video | Unsupported

  const PhotoExtensions: seq<string> := [".jpg", ".jpeg", ".png", ".heic"]
  const MovieExtensions: seq<string> := [".mov", ".mp4"]

  predicate EndsWith(s: string, suffix: string) {
    |suffix| <= |s| && s[|s| - |suffix|..] == suffix
  }

  /** `s.endswith(tuple(suffixes))`: true when any one of the suffixes ends s. */
  function EndsWithAny(s: string, suffixes: seq<string>): (r: bool)
    ensures r <==> exists i :: 0 <= i < |suffixes| && EndsWith(s, suffixes[i])
  {
    if suffixes == [] then false
    else
      var r := EndsWithAny(s, suffixes[1..]);
      assert forall i :: 1 <= i < |suffixes| ==> suffixes[i] == suffixes[1..][i - 1];
      EndsWith(s, suffixes[0]) || r
  }

  predicate IsPhotoName(name: string) {
    exists e :: e in PhotoExtensions && EndsWith(Lower(name), e)
  }

  predicate IsMovieName(name: string) {
    exists e :: e in MovieExtensions && EndsWith(Lower(name), e)
  }

  /** The if/elif/else of the run loop: photo extensions first, then movie extensions. */
  function KindOf(name: string): (k: Kind)
    ensures k == Photo <==> IsPhotoName(name)
    ensures k == Video <==> !IsPhotoName(name) && IsMovieName(name)
    ensures k == Unsupported <==> !IsPhotoName(name) && !IsMovieName(name)
  {
    var lowered := Lower(name);
    if EndsWithAny(lowered, PhotoExtensions) then Photo
    else if EndsWithAny(lowered, MovieExtensions) then Video
    else Unsupported
  }

  /** A name ends with at most one of the six extensions' last letters, so no name is both. */
  lemma NoNameIsPhotoAndMovie(name: string)
    ensures !(IsPhotoName(name) && IsMovieName(name))
  {
    // the last letters of the photo extensions (g, g, g, c) and of the
    // movie extensions (v, 4) all differ
    var s := Lower(name);
    forall p, m | p in PhotoExtensions && m in MovieExtensions
      ensures !(EndsWith(s, p) && EndsWith(s, m))
    {
      LastCharOfSuffix(s, p);
      LastCharOfSuffix(s, m);
    }
  }

  lemma LastCharOfSuffix(s: string, suffix: string)
    ensures EndsWith(s, suffix) && suffix != [] ==> s[|s| - 1] == suffix[|suffix| - 1]
  {
  }

  /**
   * Appending a photo (movie) extension, written in any mix of upper and
   * lower case, to any stem gives a photo (video) name.
   */
  lemma ExtensionInAnyCase(stem: string, ext: string)
    ensures Lower(ext) in PhotoExtensions ==> KindOf(stem + ext) == Photo
    ensures Lower(ext) in MovieExtensions ==> KindOf(stem + ext) == Video
  {
    LowerAppend(stem, ext);
    LowerLength(stem);
    LowerLength(ext);
    var s := Lower(stem + ext);
    assert s[|s| - |Lower(ext)|..] == Lower(ext);
    NoNameIsPhotoAndMovie(stem + ext);
  }
}
