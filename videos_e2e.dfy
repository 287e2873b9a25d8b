/** The end-to-end test sequence for /videos, run against the store's
    specifications: each step below is one `it(...)` block of the tests, and
    each expectation is an assertion the verifier proves from the method
    contracts alone. The two fresh ids and the timestamps stand for the
    values the clock supplies. */
module VideosE2E {
  import opened VideoTypes
  import opened Validation
  import IsoPattern
  import opened VideosRouter

  const Created: string := "2024-05-17T09:41:07.250Z"
  const Published: string := "2024-05-18T09:41:07.250Z"

  /** The request bodies of the tests. */
  const EmptyBody: CreateVideoInput := CreateVideoInput("", "", [])
  const BodyA: CreateVideoInput := CreateVideoInput("Back-end Путь самурая", "IT-INCUBATOR", ["P1080", "P1440"])
  const BodyB: CreateVideoInput := CreateVideoInput("Back-end Путь самурая 2", "IT-INCUBATOR", ["P1080"])
  const WrongUpdate: UpdateVideoInput := UpdateVideoInput("", "", [], NotBoolean, Some(20), "test")
  const GoodUpdate: UpdateVideoInput :=
    UpdateVideoInput("Night show video", "IT-KAMASUTRA", ["P2160"], Boolean(false), None, Created)

  /** The tests in order on a fresh store; the list they leave behind is empty. */
  method TestsForVideos(idA: int, idB: int) returns (finalList: seq<VideoView>)
    requires idA != idB && idA != -100 && idB != -100
    ensures finalList == []
  {
    var store := new VideoStore();
    // should return 200 and empty array
    var list := store.List();
    assert list == [];
    RejectsInvalidCreate(store, idA);
    var videoA := CreatesFirst(store, idA);
    var videoB := CreatesSecond(store, videoA, idB);
    FindsOrReports404(store, videoA, videoB);
    RejectsInvalidUpdate(store, videoA, videoB);
    UpdatesSecond(store, videoA, videoB);
    DeletesBoth(store, videoA, Overwrite(videoB, GoodUpdate));
    finalList := store.List();
  }

  /** Should not create an entity with incorrect input data. */
  method RejectsInvalidCreate(store: VideoStore, id: int)
    requires store.Valid() && store.Contents() == []
    modifies store
    ensures store.Valid() && store.Contents() == []
    ensures forall v :: v in store.dbVideos ==> v in old(store.dbVideos) || fresh(v)
  {
    InvalidCreateExample();
    var bad := store.Create(EmptyBody, id, Created, Published);
    assert bad == Invalid([ResolutionsMissing, TitleInvalid, AuthorInvalid]);
    var list := store.List();
    assert list == [];
  }

  /** Must create an entity with valid input data. */
  method CreatesFirst(store: VideoStore, id: int) returns (video: VideoView)
    requires store.Valid() && store.Contents() == []
    modifies store
    ensures store.Valid() && store.Contents() == [video]
    ensures video == NewVideo(id, BodyA, Created, Published)
    ensures forall v :: v in store.dbVideos ==> v in old(store.dbVideos) || fresh(v)
  {
    ValidCreateA(BodyA);
    var r := store.Create(BodyA, id, Created, Published);
    video := NewVideo(id, BodyA, Created, Published);
    assert r == Ok(video) && !video.canBeDownloaded && video.minAgeRestriction == None;
    // Both timestamps are stand-ins for the clock's `toISOString()` output.
    StandInTimestampsMatch();
    assert IsoPattern.Matches(video.createdAt) && IsoPattern.Matches(video.publicationDate);
    var list := store.List();
    assert list == [video];
  }

  /** create one more entity */
  method CreatesSecond(store: VideoStore, first: VideoView, id: int) returns (video: VideoView)
    requires store.Valid() && store.Contents() == [first] && first.id != id
    modifies store
    ensures store.Valid() && store.Contents() == [first, video]
    ensures video == NewVideo(id, BodyB, Created, Published)
    ensures forall v :: v in store.dbVideos ==> v in old(store.dbVideos) || fresh(v)
  {
    ValidCreateB(BodyB);
    assert !HasId(store.Contents(), id);
    var r := store.Create(BodyB, id, Created, Published);
    video := NewVideo(id, BodyB, Created, Published);
    assert r == Ok(video);
    var list := store.List();
    assert list == [first, video];
  }

  /** should return 404 for not existing entity; Must find an existing entity;
      a PUT to a missing id is a 404 whatever the body. */
  method FindsOrReports404(store: VideoStore, first: VideoView, second: VideoView)
    requires store.Valid() && store.Contents() == [first, second]
    requires first.id != -100 && second.id != -100 && first.id != second.id
    modifies set v | v in store.dbVideos
    ensures store.Valid() && store.Contents() == [first, second]
    ensures store.dbVideos == old(store.dbVideos)
  {
    var missing := store.Get(-100);
    assert missing == NotFound;
    var found := store.Get(first.id);
    assert found == Ok(first);
    var putMissing := store.Replace(-100, WrongUpdate);
    assert putMissing == NotFound;
  }

  /** Should not update an entity with incorrect input data. */
  method RejectsInvalidUpdate(store: VideoStore, first: VideoView, second: VideoView)
    requires store.Valid() && store.Contents() == [first, second] && first.id != second.id
    modifies set v | v in store.dbVideos
    ensures store.Valid() && store.Contents() == [first, second]
    ensures store.dbVideos == old(store.dbVideos)
  {
    InvalidUpdateExample();
    var r := store.Replace(second.id, WrongUpdate);
    assert r == Invalid([ResolutionsMissing, TitleInvalid, AuthorInvalid,
                         AgeRangeInvalid, DateFormatInvalid, DownloadTypeInvalid]);
  }

  /** Must update the entity with the correct input data. */
  method UpdatesSecond(store: VideoStore, first: VideoView, second: VideoView)
    requires store.Valid() && store.Contents() == [first, second] && first.id != second.id
    modifies set v | v in store.dbVideos
    ensures store.Valid() && store.Contents() == [first, Overwrite(second, GoodUpdate)]
    ensures store.dbVideos == old(store.dbVideos)
  {
    ValidUpdate(GoodUpdate);
    var r := store.Replace(second.id, GoodUpdate);
    assert r == Ok(());
    var found := store.Get(second.id);
    var updated := Overwrite(second, GoodUpdate);
    assert found == Ok(updated);
    assert updated.id == second.id && updated.createdAt == second.createdAt && updated.title == GoodUpdate.title;
  }

  /** Should not delete a non-existent entity; Must delete an existing entity. */
  method DeletesBoth(store: VideoStore, first: VideoView, second: VideoView)
    requires store.Valid() && store.Contents() == [first, second]
    requires first.id != -100 && second.id != -100 && first.id != second.id
    modifies store
    ensures store.Valid() && store.Contents() == []
  {
    var missing := store.Delete(-100);
    assert missing == NotFound;
    var r := store.Delete(second.id);
    assert r == Ok(());
    assert store.Contents() == [first];
    r := store.Delete(first.id);
    assert r == Ok(());
    var list := store.List();
    assert list == [];
  }

  /** The two stand-in timestamps have the shape `isoPattern` requires. */
  lemma StandInTimestampsMatch()
    ensures IsoPattern.Matches(Created) && IsoPattern.Matches(Published)
  {
    IsoPattern.PatternLayout();
  }

  /** The `.length` of each string of the tests (none has astral characters). */
  lemma LengthOfTitleA(s: string)
    requires s == "Back-end Путь самурая"
    ensures Utf16Length(s) == 21
  {
    Utf16LengthOfBmp(s);
  }

  lemma LengthOfTitleB(s: string)
    requires s == "Back-end Путь самурая 2"
    ensures Utf16Length(s) == 23
  {
    Utf16LengthOfBmp(s);
  }

  lemma LengthOfUpdatedTitle(s: string)
    requires s == "Night show video"
    ensures Utf16Length(s) == 16
  {
    Utf16LengthOfBmp(s);
  }

  lemma LengthOfAuthor(s: string)
    requires s == "IT-INCUBATOR" || s == "IT-KAMASUTRA"
    ensures Utf16Length(s) == 12
  {
    Utf16LengthOfBmp(s);
  }

  /** The first create body of the tests passes validation. */
  lemma ValidCreateA(data: CreateVideoInput)
    requires data == BodyA
    ensures CreateErrors(data) == []
  {
    LengthOfTitleA(data.title);
    LengthOfAuthor(data.author);
    var rs := data.availableResolutions;
    assert rs[0] == Resolutions[5] && rs[1] == Resolutions[6];
    assert AllKnownResolutions(rs);
    CreateErrorsExact(data);
  }

  /** The second create body of the tests passes validation. */
  lemma ValidCreateB(data: CreateVideoInput)
    requires data == BodyB
    ensures CreateErrors(data) == []
  {
    LengthOfTitleB(data.title);
    LengthOfAuthor(data.author);
    var rs := data.availableResolutions;
    assert rs[0] == Resolutions[5];
    assert AllKnownResolutions(rs);
    CreateErrorsExact(data);
  }

  /** The valid update body of the tests passes validation. */
  lemma ValidUpdate(data: UpdateVideoInput)
    requires data == GoodUpdate
    ensures UpdateErrors(data) == []
  {
    LengthOfUpdatedTitle(data.title);
    LengthOfAuthor(data.author);
    IsoPattern.AcceptsIsoInstant();
    var rs := data.availableResolutions;
    assert rs[0] == Resolutions[7];
    assert AllKnownResolutions(rs);
    UpdateAcceptedIff(data);
  }
}
