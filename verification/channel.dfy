/** Channel details derived from the platform's metadata: the verified badge
    and the profile picture picked from the thumbnail list. */
module Channel {
  import opened Wrappers
  import opened Text

  /** One entry of the metadata's `badges` list. A non-dictionary entry never
      counts; a dictionary has an optional string `type` and some number of
      other keys. */
  datatype Badge =
    | NonDict
    | BadgeDict(badgeType: Option<string>, otherKeys: nat)

  /** Python truthiness of a badge dictionary: it is not empty. */
  predicate NonEmpty(b: Badge)
    requires b.BadgeDict?
  {
    b.badgeType.Some? || b.otherKeys > 0
  }

  /** A badge that marks the channel as verified: a non-empty dictionary whose
      lower-cased `type` (empty when missing) contains "verified". */
  predicate IsVerifiedBadge(b: Badge) {
    b.BadgeDict? && NonEmpty(b) && Contains(Lower(b.badgeType.GetOr("")), "verified")
  }

  /** The loop over the badges, returning at the first verified one. */
  function AnyVerified(badges: seq<Badge>): (r: bool)
    ensures r <==> exists i :: 0 <= i < |badges| && IsVerifiedBadge(badges[i])
  {
    if badges == [] then false
    else if IsVerifiedBadge(badges[0]) then true
    else
      var r := AnyVerified(badges[1..]);
      assert forall i :: 0 < i < |badges| ==> badges[i] == badges[1..][i - 1];
      r
  }

  /** `get_verification_status`: the `badges` key defaults to the empty list. */
  function VerificationStatus(badges: Option<seq<Badge>>): (r: bool)
    ensures r <==> badges.Some? && exists i :: 0 <= i < |badges.value| && IsVerifiedBadge(badges.value[i])
    ensures badges.None? || badges == Some([]) ==> !r
  {
    AnyVerified(badges.GetOr([]))
  }

  /** Any capitalisation of "verified" inside the type marks a badge verified. */
  lemma VerifiedAnyCase(t: string, i: nat, k: nat)
    requires i + 8 <= |t| && Lower(t[i..i + 8]) == "verified"
    ensures IsVerifiedBadge(BadgeDict(Some(t), k))
  {
    assert Lower(t)[i..i + 8] == Lower(t[i..i + 8]);
    ContainsAt(Lower(t), "verified", i);
  }

  /** One entry of the metadata's `thumbnails` list: optional `url` and `id` keys. */
  datatype Thumbnail = Thumbnail(url: Option<string>, id: Option<string>)

  /** A thumbnail that can serve as the channel's profile picture. */
  predicate IsAvatar(t: Thumbnail) {
    t.url.Some? && Contains(t.id.GetOr(""), "avatar")
  }

  /** The profile-picture loop: the url of the first avatar thumbnail, or
      nothing when no thumbnail qualifies. */
  method ProfilePicture(thumbnails: seq<Thumbnail>) returns (picture: Option<string>)
    ensures picture.None? <==> forall i :: 0 <= i < |thumbnails| ==> !IsAvatar(thumbnails[i])
    ensures picture.Some? ==>
      exists i :: (0 <= i < |thumbnails| && IsAvatar(thumbnails[i]) && picture == thumbnails[i].url
                   && forall j :: 0 <= j < i ==> !IsAvatar(thumbnails[j]))
  {
    picture := None;
    var i := 0;
    while i < |thumbnails|
      invariant 0 <= i <= |thumbnails|
      invariant forall j :: 0 <= j < i ==> !IsAvatar(thumbnails[j])
      invariant picture.None?
    {
      var t := thumbnails[i];
      if t.url.Some? && Contains(t.id.GetOr(""), "avatar") {
        picture := t.url;
        return;
      }
      i := i + 1;
    }
  }
}
