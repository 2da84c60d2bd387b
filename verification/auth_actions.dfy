/** The auth server action that copies the signed-in user's profile from the
    identity provider into the users table. */
module AuthActions {
  import opened Wrappers
  import opened Rows
  import opened Repositories

  const Unauthorized: string := "Unauthorized"

  /** The fields of the identity provider's user record that are read. */
  datatype ClerkUser = ClerkUser(
    emailAddresses: seq<string>,
    firstName: Option<string>,
    lastName: Option<string>,
    username: Option<string>,
    imageUrl: Option<string>)

  function FirstEmail(u: ClerkUser): Option<string>
  {
    if |u.emailAddresses| > 0 then Some(u.emailAddresses[0]) else None
  }

  /** `a || b` for an optional string: a when it is truthy, else b. */
  function OrElse(a: Option<string>, b: string): (r: string)
    ensures StrTruthy(a) ==> r == a.value
    ensures !StrTruthy(a) ==> r == b
  {
    if StrTruthy(a) then a.value else b
  }

  /** The row syncUserAction upserts for the signed-in user. */
  function SyncRecord(userId: Id, u: ClerkUser): (r: UserRow)
    ensures r.id == userId
  {
    UserRow(
      userId,
      OrElse(FirstEmail(u), ""),
      if StrTruthy(u.firstName) && StrTruthy(u.lastName) then u.firstName.value + " " + u.lastName.value
      else OrElse(u.username, OrElse(FirstEmail(u), "User")),
      if StrTruthy(u.imageUrl) then u.imageUrl else None)
  }

  /** The email is the first address, or "" when there is none. */
  lemma SyncedEmail(userId: Id, u: ClerkUser)
    ensures SyncRecord(userId, u).email == if |u.emailAddresses| > 0 then u.emailAddresses[0] else ""
  {
  }

  /** With both a first and a last name, the name holds both in full: it
      splits back into the first name and the last name at the one space
      after the first name. */
  lemma {:induction false} SyncedFullName(userId: Id, u: ClerkUser)
    requires StrTruthy(u.firstName) && StrTruthy(u.lastName)
    ensures var name, first := SyncRecord(userId, u).name, u.firstName.value;
            |name| == |first| + 1 + |u.lastName.value| &&
            name[..|first|] == first && name[|first|] == ' ' && name[|first| + 1..] == u.lastName.value
  {
    var name, first, last := SyncRecord(userId, u).name, u.firstName.value, u.lastName.value;
    assert name == first + " " + last;
    assert name[..|first|] == first;
    assert name[|first| + 1..] == last;
  }

  /** Otherwise the username, else the first email, else "User". */
  lemma SyncedFallbackName(userId: Id, u: ClerkUser)
    requires !(StrTruthy(u.firstName) && StrTruthy(u.lastName))
    ensures StrTruthy(u.username) ==> SyncRecord(userId, u).name == u.username.value
    ensures !StrTruthy(u.username) && |u.emailAddresses| > 0 && u.emailAddresses[0] != "" ==>
              SyncRecord(userId, u).name == u.emailAddresses[0]
    ensures !StrTruthy(u.username) && (|u.emailAddresses| == 0 || u.emailAddresses[0] == "") ==>
              SyncRecord(userId, u).name == "User"
  {
  }

  /** Every branch of the chain yields a non-empty name. */
  lemma {:induction false} SyncedNameNonEmpty(userId: Id, u: ClerkUser)
    ensures SyncRecord(userId, u).name != ""
  {
    if StrTruthy(u.firstName) && StrTruthy(u.lastName) {
      assert |u.firstName.value + " " + u.lastName.value| > 0;
    }
  }

  /** The image `|| null`: an empty url is stored as null, never as "", and a
      stored image is always the profile's url. */
  lemma SyncedImage(userId: Id, u: ClerkUser)
    ensures var image := SyncRecord(userId, u).image;
            (image.None? || image.value != "") &&
            (image.Some? ==> image == u.imageUrl) &&
            (image.None? ==> u.imageUrl.None? || u.imageUrl.value == "")
  {
  }

  /** syncUserAction, given the authenticated user id, that user's record
      at the identity provider, and whether the upsert fails. */
  method SyncUserAction(db: Database, auth: Option<Id>, clerkUser: ClerkUser, upsertFails: bool) returns (r: Result<Id>)
    requires db.Valid()
    modifies db`users
    ensures db.Valid()
    ensures !StrTruthy(auth) ==> r == Err(Unauthorized) && db.users == old(db.users)
    ensures StrTruthy(auth) && upsertFails ==> r.Err? && db.users == old(db.users)
    ensures StrTruthy(auth) && !upsertFails ==>
              r == Ok(auth.value) && db.users == old(db.users)[auth.value := SyncRecord(auth.value, clerkUser)]
  {
    if !StrTruthy(auth) {
      return Err(Unauthorized);
    }
    var userId := auth.value;
    var synced := db.SyncUser(SyncRecord(userId, clerkUser), upsertFails);
    if synced.Err? {
      return Err(synced.message);
    }
    return Ok(userId);
  }
}
