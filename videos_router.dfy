/** The handlers of the videos router acting on the shared `dbVideos` array:
    list, create (append), get-by-id (linear find), replace-by-id (six fields
    of the found record assigned in place) and delete-by-id (findIndex and
    splice).

    Records are objects (`Video`) because the update handler assigns fields of
    the record it found; `id` and `createdAt` are constant fields, since no
    handler ever writes them. `VideoStore.Contents()` is the list as the
    handlers send it; the store's methods state their results and new
    contents in terms of the value-level functions below, and the lemmas
    about those functions state what the handlers promise. */
module VideosRouter {
  import opened VideoTypes
  import opened Validation

  /** What a handler reports: a body, a missing id, or the ordered error list. */
  datatype Outcome<+T> = Ok(value: T) | NotFound | Invalid(errors: seq<FieldError>)

  // ---------------------------------------------------------------------------
  // The store's contents as values

  predicate HasId(vs: seq<VideoView>, id: int) {
    exists i :: 0 <= i < |vs| && vs[i].id == id
  }

  predicate UniqueIds(vs: seq<VideoView>) {
    forall i, j :: 0 <= i < j < |vs| ==> vs[i].id != vs[j].id
  }

  /** The record meets the rules it was validated against when last written. */
  predicate Conforms(v: VideoView) {
    |v.availableResolutions| > 0 && AllKnownResolutions(v.availableResolutions) &&
    1 <= Utf16Length(v.title) <= 40 && 1 <= Utf16Length(v.author) <= 20 &&
    (v.minAgeRestriction.Some? ==> 1 <= v.minAgeRestriction.value <= 18)
  }

  predicate StoreInvariant(vs: seq<VideoView>) {
    UniqueIds(vs) && forall i :: 0 <= i < |vs| ==> Conforms(vs[i])
  }

  /** The index `Array.prototype.findIndex` returns for `v.id === id`: the first match, or -1. */
  function FirstIndex(vs: seq<VideoView>, id: int): (k: int)
    ensures -1 <= k < |vs|
    ensures k == -1 <==> !HasId(vs, id)
    ensures k >= 0 ==> vs[k].id == id && forall j :: 0 <= j < k ==> vs[j].id != id
  {
    if vs == [] then -1
    else if vs[0].id == id then 0
    else
      var k := FirstIndex(vs[1..], id);
      if k == -1 then -1 else k + 1
  }

  /** The record the create handler builds (its id and both timestamps come from the caller). */
  function NewVideo(id: int, input: CreateVideoInput, createdAt: string, publicationDate: string): VideoView {
    VideoView(id, input.title, input.author, false, None, createdAt, publicationDate, input.availableResolutions)
  }

  /** The record after the update handler's six assignments. */
  function Overwrite(v: VideoView, input: UpdateVideoInput): VideoView
    requires input.canBeDownloaded.Boolean?
  {
    v.(title := input.title, author := input.author, availableResolutions := input.availableResolutions,
       canBeDownloaded := input.canBeDownloaded.value, minAgeRestriction := input.minAgeRestriction,
       publicationDate := input.publicationDate)
  }

  /** `splice(k, 1)`: the list without its `k`-th element, the rest in their order. */
  function RemoveAt(vs: seq<VideoView>, k: int): (r: seq<VideoView>)
    requires 0 <= k < |vs|
    ensures |r| == |vs| - 1
    ensures forall i :: 0 <= i < k ==> r[i] == vs[i]
    ensures forall i :: k <= i < |r| ==> r[i] == vs[i + 1]
  {
    vs[..k] + vs[k + 1..]
  }

  // ---------------------------------------------------------------------------
  // Lemmas about the value-level operations

  /** With unique ids, the first match is the only match. */
  lemma FirstIndexOfUnique(vs: seq<VideoView>, k: int)
    requires UniqueIds(vs) && 0 <= k < |vs|
    ensures FirstIndex(vs, vs[k].id) == k
  {
  }

  /** A record that passed create validation meets the store's rules. */
  lemma NewVideoConforms(id: int, input: CreateVideoInput, createdAt: string, publicationDate: string)
    requires CreateErrors(input) == []
    ensures Conforms(NewVideo(id, input, createdAt, publicationDate))
  {
    CreateErrorsExact(input);
  }

  lemma AppendUnique(vs: seq<VideoView>, v: VideoView)
    requires UniqueIds(vs) && !HasId(vs, v.id)
    ensures UniqueIds(vs + [v])
  {
    var w := vs + [v];
    forall i, j | 0 <= i < j < |w|
      ensures w[i].id != w[j].id
    {
      assert w[i] == vs[i];
      if j < |vs| {
        assert w[j] == vs[j];
      }
    }
  }

  lemma AppendConforms(vs: seq<VideoView>, v: VideoView)
    requires (forall i :: 0 <= i < |vs| ==> Conforms(vs[i])) && Conforms(v)
    ensures forall i :: 0 <= i < |vs + [v]| ==> Conforms((vs + [v])[i])
  {
    var w := vs + [v];
    forall i | 0 <= i < |w|
      ensures Conforms(w[i])
    {
      if i < |vs| {
        assert w[i] == vs[i];
      }
    }
  }

  /** Appending a conforming record under a fresh id keeps the invariant, and get-by-id then finds it at the end. */
  lemma AppendKeepsInvariant(vs: seq<VideoView>, v: VideoView)
    requires StoreInvariant(vs) && !HasId(vs, v.id) && Conforms(v)
    ensures StoreInvariant(vs + [v])
    ensures FirstIndex(vs + [v], v.id) == |vs| && (vs + [v])[|vs|] == v
  {
    AppendUnique(vs, v);
    AppendConforms(vs, v);
    FirstIndexOfUnique(vs + [v], |vs|);
  }

  /** An update that passed validation keeps the invariant; the record stays where it was, with its id and createdAt. */
  lemma OverwriteKeepsInvariant(vs: seq<VideoView>, k: int, input: UpdateVideoInput)
    requires StoreInvariant(vs) && 0 <= k < |vs| && UpdateErrors(input) == []
    ensures input.canBeDownloaded.Boolean?
    ensures var w := vs[k := Overwrite(vs[k], input)];
      StoreInvariant(w) && FirstIndex(w, vs[k].id) == k &&
      w[k].id == vs[k].id && w[k].createdAt == vs[k].createdAt &&
      w[k].title == input.title && w[k].author == input.author &&
      w[k].availableResolutions == input.availableResolutions &&
      w[k].canBeDownloaded == input.canBeDownloaded.value &&
      w[k].minAgeRestriction == input.minAgeRestriction && w[k].publicationDate == input.publicationDate
  {
    UpdateAcceptedIff(input);
    var w := vs[k := Overwrite(vs[k], input)];
    assert Conforms(w[k]);
    FirstIndexOfUnique(w, k);
  }

  /** Deleting keeps the invariant and leaves no record with the deleted id. */
  lemma RemoveKeepsInvariant(vs: seq<VideoView>, k: int)
    requires StoreInvariant(vs) && 0 <= k < |vs|
    ensures StoreInvariant(RemoveAt(vs, k))
    ensures !HasId(RemoveAt(vs, k), vs[k].id)
    ensures multiset(RemoveAt(vs, k)) == multiset(vs) - multiset{vs[k]}
  {
    var r := RemoveAt(vs, k);
    forall i, j | 0 <= i < j < |r|
      ensures r[i].id != r[j].id
    {
      var i' := if i < k then i else i + 1;
      var j' := if j < k then j else j + 1;
      assert r[i] == vs[i'] && r[j] == vs[j'] && i' < j';
    }
    forall i | 0 <= i < |r|
      ensures r[i].id != vs[k].id
    {
      var i' := if i < k then i else i + 1;
      assert r[i] == vs[i'] && i' != k;
    }
    assert vs == vs[..k] + [vs[k]] + vs[k + 1..];
  }

  // ---------------------------------------------------------------------------
  // The objects

  /** A stored video record. */
  class Video {
    const id: int
    const createdAt: string
    var title: string
    var author: string
    var canBeDownloaded: bool
    var minAgeRestriction: Option<int>
    var publicationDate: string
    var availableResolutions: seq<string>

    /** The object literal of the create handler. */
    constructor (id: int, input: CreateVideoInput, createdAt: string, publicationDate: string)
      ensures View() == NewVideo(id, input, createdAt, publicationDate)
    {
      this.id := id;
      this.title := input.title;
      this.author := input.author;
      this.canBeDownloaded := false;
      this.minAgeRestriction := None;
      this.createdAt := createdAt;
      this.publicationDate := publicationDate;
      this.availableResolutions := input.availableResolutions;
    }

    /** The update handler's six assignments; `id` and `createdAt` are not among them. */
    method AssignFields(input: UpdateVideoInput)
      requires input.canBeDownloaded.Boolean?
      modifies this
      ensures View() == Overwrite(old(View()), input)
    {
      title := input.title;
      author := input.author;
      availableResolutions := input.availableResolutions;
      canBeDownloaded := input.canBeDownloaded.value;
      minAgeRestriction := input.minAgeRestriction;
      publicationDate := input.publicationDate;
    }

    /** The record as `res.json` sends it. */
    function View(): (v: VideoView)
      reads this
      ensures v.id == id && v.createdAt == createdAt
    {
      VideoView(id, title, author, canBeDownloaded, minAgeRestriction, createdAt, publicationDate, availableResolutions)
    }
  }

  function Views(vs: seq<Video>): (r: seq<VideoView>)
    reads set v | v in vs
    ensures |r| == |vs| && forall i :: 0 <= i < |vs| ==> r[i] == vs[i].View()
  {
    if vs == [] then [] else [vs[0].View()] + Views(vs[1..])
  }

  /** Removing an object from the array removes its record from the values. */
  lemma ViewsRemove(vs: seq<Video>, k: int)
    requires 0 <= k < |vs|
    ensures Views(vs[..k] + vs[k + 1..]) == RemoveAt(Views(vs), k)
  {
    var rest := vs[..k] + vs[k + 1..];
    forall i | 0 <= i < |rest|
      ensures Views(rest)[i] == RemoveAt(Views(vs), k)[i]
    {
      if i < k {
        assert rest[i] == vs[i];
      } else {
        assert rest[i] == vs[i + 1];
      }
    }
  }

  /** The `dbVideos` array shared by the handlers. */
  class VideoStore {
    var dbVideos: seq<Video>

    /** The records in insertion order, as values. */
    function Contents(): seq<VideoView>
      reads this, set v | v in dbVideos
    {
      Views(dbVideos)
    }

    ghost predicate Valid()
      reads this, set v | v in dbVideos
    {
      StoreInvariant(Contents())
    }

    /** `let dbVideos: Video[] = []` */
    constructor ()
      ensures Valid() && Contents() == []
    {
      dbVideos := [];
    }

    /** GET /videos */
    method List() returns (r: seq<VideoView>)
      ensures r == Contents()
    {
      r := Views(dbVideos);
    }

    /** `dbVideos.findIndex(v => v.id === id)` */
    method IndexOf(id: int) returns (k: int)
      ensures k == FirstIndex(Contents(), id)
    {
      k := 0;
      while k < |dbVideos| && dbVideos[k].id != id
        invariant 0 <= k <= |dbVideos|
        invariant forall j :: 0 <= j < k ==> dbVideos[j].id != id
      {
        k := k + 1;
      }
      if k == |dbVideos| {
        k := -1;
      }
    }

    /** GET /videos/:id */
    method Get(id: int) returns (r: Outcome<VideoView>)
      ensures var k := FirstIndex(Contents(), id);
        if k == -1 then r == NotFound else r == Ok(Contents()[k])
    {
      var k := IndexOf(id);
      if k == -1 {
        return NotFound;
      }
      r := Ok(dbVideos[k].View());
    }

    /** POST /videos */
    method Create(input: CreateVideoInput, id: int, createdAt: string, publicationDate: string)
      returns (r: Outcome<VideoView>)
      requires Valid() && !HasId(Contents(), id)
      modifies this
      ensures Valid()
      ensures forall v :: v in dbVideos ==> v in old(dbVideos) || fresh(v)
      ensures CreateErrors(input) != [] ==>
        r == Invalid(CreateErrors(input)) && Contents() == old(Contents())
      ensures CreateErrors(input) == [] ==>
        r == Ok(NewVideo(id, input, createdAt, publicationDate)) &&
        Contents() == old(Contents()) + [NewVideo(id, input, createdAt, publicationDate)]
    {
      var errors := CreateInputValidation(input);
      if errors != [] {
        return Invalid(errors);
      }
      var v := new Video(id, input, createdAt, publicationDate);
      dbVideos := dbVideos + [v];
      assert Contents() == old(Contents()) + [v.View()];
      NewVideoConforms(id, input, createdAt, publicationDate);
      AppendKeepsInvariant(old(Contents()), v.View());
      r := Ok(v.View());
    }

    /** PUT /videos/:id: the id is looked up before the body is validated. */
    method Replace(id: int, input: UpdateVideoInput) returns (r: Outcome<()>)
      requires Valid()
      modifies set v | v in dbVideos
      ensures Valid() && dbVideos == old(dbVideos)
      ensures var k := FirstIndex(old(Contents()), id);
        if k == -1 then r == NotFound && Contents() == old(Contents())
        else if UpdateErrors(input) != [] then r == Invalid(UpdateErrors(input)) && Contents() == old(Contents())
        else input.canBeDownloaded.Boolean? && r == Ok(()) &&
             Contents() == old(Contents())[k := Overwrite(old(Contents())[k], input)]
    {
      var k := IndexOf(id);
      if k == -1 {
        return NotFound;
      }
      var errors := UpdateInputValidation(input);
      if errors != [] {
        return Invalid(errors);
      }
      UpdateAcceptedIff(input);
      OverwriteAt(k, input);
      r := Ok(());
    }

    /** The six assignments to the record at index `k`; every other record is untouched. */
    method OverwriteAt(k: int, input: UpdateVideoInput)
      requires Valid() && 0 <= k < |dbVideos| && UpdateErrors(input) == [] && input.canBeDownloaded.Boolean?
      modifies set v | v in dbVideos
      ensures Valid() && dbVideos == old(dbVideos)
      ensures Contents() == old(Contents())[k := Overwrite(old(Contents())[k], input)]
    {
      ghost var before := Contents();
      OverwriteKeepsInvariant(before, k, input);
      ghost var after := before[k := Overwrite(before[k], input)];
      var found := dbVideos[k];
      forall j | 0 <= j < |dbVideos| && j != k
        ensures dbVideos[j] != found
      {
        assert before[j].id != before[k].id;
      }
      found.AssignFields(input);
      forall j | 0 <= j < |dbVideos|
        ensures Contents()[j] == after[j]
      {
        if j != k {
          assert dbVideos[j].View() == old(dbVideos[j].View());
        }
      }
      assert Contents() == after;
    }

    /** DELETE /videos/:id */
    method Delete(id: int) returns (r: Outcome<()>)
      requires Valid()
      modifies this
      ensures Valid()
      ensures var k := FirstIndex(old(Contents()), id);
        if k == -1 then r == NotFound && Contents() == old(Contents())
        else r == Ok(()) && Contents() == RemoveAt(old(Contents()), k)
    {
      var k := IndexOf(id);
      if k == -1 {
        return NotFound;
      }
      RemoveIndex(k);
      r := Ok(());
    }

    /** `dbVideos.splice(index, 1)` */
    method RemoveIndex(k: int)
      requires Valid() && 0 <= k < |dbVideos|
      modifies this
      ensures Valid() && Contents() == RemoveAt(old(Contents()), k)
    {
      RemoveKeepsInvariant(Contents(), k);
      ViewsRemove(dbVideos, k);
      dbVideos := dbVideos[..k] + dbVideos[k + 1..];
    }
  }
}
