/** The profile server actions: the settings form's update of the caller's own
    profile, with its username checks, and the storage path of an uploaded avatar. */
module ProfileActions {
  import opened Basics
  import opened Text
  import opened Seqs
  import opened Store

  /** The store calls of `updateProfile` that may fail for reasons outside the model. */
  datatype Call = CheckUsername | UpdateRow

  const NotAuthenticated := "Not authenticated"
  const UsernameRequired := "Username is required"
  const UpdateFailed := "Failed to update profile"
  const UsernameTaken := "Username is already taken"

  /** The submitted form fields; a field left out of the form is `None`. */
  datatype ProfileForm = ProfileForm(username: Option<string>, fullName: Option<string>, bio: Option<string>)

  /** `.eq("username", name).neq("id", u)`: a profile of someone else with exactly that username. */
  function NamedOther(name: string, u: UserId): Profile -> bool
  {
    (p: Profile) => p.username == name && p.id != u
  }

  /** Lines 52-57: the caller's row after the update; the avatar is kept. */
  function Rewrite(p: Profile, name: string, form: ProfileForm, now: int): Profile
  {
    Profile(p.id, name, NullIfEmpty(form.fullName), NullIfEmpty(form.bio), p.avatarUrl, now)
  }

  /** Lines 50-58: the update of every row whose id is the caller's. */
  function UpdateRows(profiles: seq<Profile>, u: UserId, name: string, form: ProfileForm, now: int)
    : (r: seq<Profile>)
    ensures |r| == |profiles|
    ensures forall k :: 0 <= k < |r| ==> r[k].id == profiles[k].id
  {
    seq(|profiles|, k requires 0 <= k < |profiles| =>
      if profiles[k].id == u then Rewrite(profiles[k], name, form, now) else profiles[k])
  }

  /** Lines 6-71: the profiles table after the update, or the error. `maybeSingle()`
      fails when more than one row matches, which is reported like a failed query. */
  function Update(profiles: seq<Profile>, session: Option<UserId>, form: ProfileForm, now: int,
                  failing: set<Call>): (r: Result<seq<Profile>>)
    ensures session.None? ==> r == Err(NotAuthenticated)
    ensures session.Some? && (form.username.None? || IsBlank(form.username.value)) ==> r == Err(UsernameRequired)
    ensures r.Err? ==> r.error in {NotAuthenticated, UsernameRequired, UpdateFailed, UsernameTaken}
    ensures CheckUsername in failing ==> r.Err?
  {
    if session.None? then Err(NotAuthenticated)
    else if form.username.None? || IsBlank(form.username.value) then Err(UsernameRequired)
    else
      var u := session.value;
      var name := form.username.value;
      var others := Filter(profiles, NamedOther(name, u));
      if CheckUsername in failing || |others| > 1 then Err(UpdateFailed)
      else if |others| == 1 then Err(UsernameTaken)
      else if UpdateRow in failing then Err(UpdateFailed)
      else Ok(UpdateRows(profiles, u, name, form, now))
  }

  /** Someone else's profile holding exactly the submitted username makes it taken;
      the caller's own current username does not. */
  lemma TakenIffOtherHasIt(profiles: seq<Profile>, u: UserId, form: ProfileForm, now: int, failing: set<Call>)
    requires UniqueUsernamesOfOthers(profiles, u)
    requires CheckUsername !in failing
    requires form.username.Some? && !IsBlank(form.username.value)
    ensures var r := Update(profiles, Some(u), form, now, failing);
            var name := form.username.value;
            (r == Err(UsernameTaken) <==> exists k :: 0 <= k < |profiles| && profiles[k].username == name &&
                                                       profiles[k].id != u) &&
            (r.Err? ==> r == Err(UsernameTaken) || UpdateRow in failing)
  {
    var name := form.username.value;
    var others := Filter(profiles, NamedOther(name, u));
    if |others| >= 2 {
      var i, j := TwoPassers(profiles, NamedOther(name, u));
      assert false;
    }
    if exists k :: 0 <= k < |profiles| && profiles[k].username == name && profiles[k].id != u {
      var k :| 0 <= k < |profiles| && profiles[k].username == name && profiles[k].id != u;
      assert profiles[k] in others;
    }
  }

  /** At most one profile other than `u`'s holds any given username; the store does
      not enforce it, but without it `maybeSingle()` fails and the update is refused. */
  predicate UniqueUsernamesOfOthers(profiles: seq<Profile>, u: UserId)
  {
    forall i, j :: 0 <= i < j < |profiles| && profiles[i].id != u && profiles[j].id != u ==>
      profiles[i].username != profiles[j].username
  }

  /** Two profiles other than the caller's holding the submitted username make the
      uniqueness check itself fail, and nothing is updated. */
  lemma DuplicateOthersFailCheck(profiles: seq<Profile>, u: UserId, form: ProfileForm, now: int,
                                 failing: set<Call>, i: nat, j: nat)
    requires form.username.Some? && !IsBlank(form.username.value)
    requires i < j < |profiles| && profiles[i].id != u && profiles[j].id != u
    requires profiles[i].username == form.username.value == profiles[j].username
    ensures Update(profiles, Some(u), form, now, failing) == Err(UpdateFailed)
  {
    TwoPass(profiles, NamedOther(form.username.value, u), i, j);
  }

  /** Keeping one's own username is allowed: when only the caller's profile holds the
      submitted username and no store call fails, the update succeeds. */
  lemma KeepingOwnUsername(profiles: seq<Profile>, u: UserId, form: ProfileForm, now: int)
    requires form.username.Some? && !IsBlank(form.username.value)
    requires forall k :: 0 <= k < |profiles| && profiles[k].username == form.username.value ==> profiles[k].id == u
    ensures Update(profiles, Some(u), form, now, {}).Ok?
  {
    var name := form.username.value;
    NoOtherHolds(profiles, u, name);
    assert Update(profiles, Some(u), form, now, {}) == Ok(UpdateRows(profiles, u, name, form, now));
  }

  /** When only `u`'s profile holds `name`, the lookup of other holders finds none. */
  lemma NoOtherHolds(profiles: seq<Profile>, u: UserId, name: string)
    requires forall k :: 0 <= k < |profiles| && profiles[k].username == name ==> profiles[k].id == u
    ensures Filter(profiles, NamedOther(name, u)) == []
  {
    assert forall k :: 0 <= k < |profiles| ==> !NamedOther(name, u)(profiles[k]);
    FilterNone(profiles, NamedOther(name, u));
  }

  /** A successful update rewrites the caller's row only: the username as submitted,
      untrimmed, an empty or missing full name or bio stored as null, the avatar kept
      and the time of the update recorded; every other row is unchanged. */
  lemma UpdateTouchesOwnRowOnly(profiles: seq<Profile>, session: Option<UserId>, form: ProfileForm, now: int,
                                failing: set<Call>)
    requires Update(profiles, session, form, now, failing).Ok?
    ensures var r := Update(profiles, session, form, now, failing).value;
            session.Some? && form.username.Some? && |r| == |profiles| &&
            forall k :: 0 <= k < |r| ==>
              if profiles[k].id == session.value then
                r[k].id == profiles[k].id && r[k].username == form.username.value &&
                (r[k].fullName.None? <==> !Truthy(form.fullName)) &&
                (r[k].fullName.Some? ==> r[k].fullName == form.fullName) &&
                (r[k].bio.None? <==> !Truthy(form.bio)) && (r[k].bio.Some? ==> r[k].bio == form.bio) &&
                r[k].avatarUrl == profiles[k].avatarUrl && r[k].updatedAt == now
              else r[k] == profiles[k]
  {
  }

  /** Rows keeping their ids keep which users have a profile. */
  lemma SameIdsSameProfiles(before: seq<Profile>, after: seq<Profile>)
    requires |after| == |before| && forall k :: 0 <= k < |before| ==> after[k].id == before[k].id
    ensures UniqueProfileIds(before) ==> UniqueProfileIds(after)
    ensures forall id :: HasProfile(after, id) <==> HasProfile(before, id)
  {
  }

  /** Lines 6-71. Answers as `Update` does and stores its table. */
  method UpdateProfile(db: Database, session: Option<UserId>, form: ProfileForm, now: int, failing: set<Call>)
    returns (r: Outcome)
    requires db.Valid()
    modifies db`profiles
    ensures db.Valid()
    ensures var n := Update(old(db.profiles), session, form, now, failing);
            r == (if n.Ok? then Success else Failure(n.error)) &&
            db.profiles == (if n.Ok? then n.value else old(db.profiles))
  {
    match Update(db.profiles, session, form, now, failing)
    case Err(e) =>
      r := Failure(e);
    case Ok(profiles) =>
      ReplaceProfiles(db, profiles);
      r := Success;
  }

  /** The update of lines 50-58 once the store accepts it: the rows keep their ids. */
  method ReplaceProfiles(db: Database, profiles: seq<Profile>)
    requires db.Valid()
    requires |profiles| == |db.profiles| && forall k :: 0 <= k < |profiles| ==> profiles[k].id == db.profiles[k].id
    modifies db`profiles
    ensures db.Valid() && db.profiles == profiles
  {
    SameIdsSameProfiles(db.profiles, profiles);
    db.profiles := profiles;
  }

  // ---------------------------------------------------------------- uploadAvatar

  /** Lines 98-99: `${userId}/${Date.now()}.${file.name.split(".").pop()}`. */
  function AvatarPath(u: UserId, fileName: string, now: nat): string
  {
    u + "/" + Decimal(now) + "." + AfterLast(fileName, '.')
  }

  /** The avatar keeps the extension of the uploaded file: the text after its last
      `.`, or the whole name when it has none. */
  lemma AvatarKeepsExtension(u: UserId, fileName: string, now: nat)
    ensures AfterLast(AvatarPath(u, fileName, now), '.') == AfterLast(fileName, '.')
    ensures '.' !in fileName ==> AfterLast(AvatarPath(u, fileName, now), '.') == fileName
  {
    AfterLastOfAppend(u + "/" + Decimal(now), AfterLast(fileName, '.'), '.');
  }

  /** The avatar is stored in the caller's folder, under a name made of the upload
      time and the extension: with no `/` in the user id or the file name the path has
      exactly these two segments, and the time reads back from the name. */
  lemma AvatarInCallerFolder(u: UserId, fileName: string, now: nat)
    requires '/' !in u && '/' !in fileName
    ensures Split(AvatarPath(u, fileName, now), '/') == [u, Decimal(now) + "." + AfterLast(fileName, '.')]
    ensures ParseDecimal(Decimal(now)) == now
  {
    var ext := AfterLast(fileName, '.');
    var name := Decimal(now) + "." + ext;
    assert forall k :: 0 <= k < |ext| ==> ext[k] in fileName by {
      if '.' in fileName {
        var pre :| fileName == pre + ['.'] + ext;
        forall k | 0 <= k < |ext| ensures ext[k] in fileName {
          assert fileName[|pre| + 1 + k] == ext[k];
        }
      }
    }
    assert '/' !in name by {
      assert forall k :: 0 <= k < |Decimal(now)| ==> '0' <= Decimal(now)[k] <= '9';
    }
    assert AvatarPath(u, fileName, now) == u + ['/'] + name;
    SplitAppend(u, name, '/');
    SplitFree(u, '/');
    DecimalRoundTrip(now);
  }
}
