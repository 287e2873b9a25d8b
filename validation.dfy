/** `CreateInputValidation` and `UpdateInputValidation`: request-body checks
    that build an ordered list of `{message, field}` errors.

    Each check is first described by a function (`ResolutionErrors`,
    `TitleErrors`, ...) and the whole list by `CreateErrors` and
    `UpdateErrors`; the lemmas say what those lists contain and in what order.
    The methods `CreateInputValidation` and `UpdateInputValidation` are the
    validators as the router runs them, pushing onto the list one check after
    another and scanning the resolutions with a loop that stops at the first
    unknown one; their postconditions tie them to the functions. */
module Validation {
  import opened VideoTypes
  import IsoPattern

  /** The fields an error can name, listed in the order the validators check them. */
  datatype Field = AvailableResolutions | Title | Author | MinAgeRestriction | PublicationDate | CanBeDownloaded
  {
    /** The `field` string sent to the client. */
    function Name(): string {
      match this
      case AvailableResolutions => "availableResolutions"
      case Title => "title"
      case Author => "author"
      case MinAgeRestriction => "minAgeRestriction"
      case PublicationDate => "publicationDate"
      case CanBeDownloaded => "canBeDownloaded"
    }
  }

  /** One entry of `errorsMessages`. */
  datatype FieldError = FieldError(message: string, field: Field)

  const ResolutionsMissing := FieldError("error!!!", AvailableResolutions)
  const ResolutionFormat := FieldError("Invalid resolution format.", AvailableResolutions)
  const TitleInvalid := FieldError("Invalid title.", Title)
  const AuthorInvalid := FieldError("Invalid author name.", Author)
  const AgeRangeInvalid := FieldError("An incorrect value range was passed.", MinAgeRestriction)
  const DateFormatInvalid := FieldError("Invalid date format.", PublicationDate)
  const DownloadTypeInvalid := FieldError("Invalid type passed.", CanBeDownloaded)

  // ---------------------------------------------------------------------------
  // String length as JavaScript counts it

  /** The positions of `s` holding a character outside the Basic Multilingual
      Plane, which UTF-16 stores as a surrogate pair of two code units. */
  function AstralPositions(s: string): set<nat> {
    set i: nat | i < |s| && s[i] as int >= 0x1_0000
  }

  /** `s.length` in JavaScript: one code unit per character, one more per astral character. */
  function Utf16Length(s: string): (n: nat)
    ensures |s| <= n <= 2 * |s|
  {
    AstralPositionsBound(s);
    |s| + |AstralPositions(s)|
  }

  lemma {:induction false} AstralPositionsBound(s: string)
    ensures |AstralPositions(s)| <= |s|
  {
    if s != [] {
      var k := |s| - 1;
      var init := s[..k];
      assert forall i :: i in AstralPositions(init) <==> i in AstralPositions(s) && i < k;
      if s[k] as int >= 0x1_0000 {
        assert k !in AstralPositions(init);
        assert AstralPositions(s) == AstralPositions(init) + {k};
      } else {
        assert AstralPositions(s) == AstralPositions(init);
      }
      AstralPositionsBound(init);
    }
  }

  /** For text without astral characters, `.length` is the number of characters. */
  lemma Utf16LengthOfBmp(s: string)
    requires forall i :: 0 <= i < |s| ==> s[i] as int < 0x1_0000
    ensures Utf16Length(s) == |s|
  {
    assert AstralPositions(s) == {};
  }

  // ---------------------------------------------------------------------------
  // One function per validation rule

  predicate KnownResolution(r: string) {
    r in Resolutions
  }

  predicate AllKnownResolutions(rs: seq<string>) {
    forall i :: 0 <= i < |rs| ==> KnownResolution(rs[i])
  }

  /** An empty list is reported as missing; a list holding an unknown value is reported once. */
  function ResolutionErrors(rs: seq<string>): seq<FieldError> {
    (if |rs| == 0 then [ResolutionsMissing] else []) +
    (if AllKnownResolutions(rs) then [] else [ResolutionFormat])
  }

  /** `!title || title.length > 40` */
  function TitleErrors(title: string): seq<FieldError> {
    if Utf16Length(title) == 0 || Utf16Length(title) > 40 then [TitleInvalid] else []
  }

  /** `!author || author.length > 20` */
  function AuthorErrors(author: string): seq<FieldError> {
    if Utf16Length(author) == 0 || Utf16Length(author) > 20 then [AuthorInvalid] else []
  }

  function MinAgeErrors(age: Option<int>): seq<FieldError> {
    match age
    case None => []
    case Some(n) => if n < 1 || n > 18 then [AgeRangeInvalid] else []
  }

  function PublicationDateErrors(date: string): seq<FieldError> {
    if IsoPattern.Matches(date) then [] else [DateFormatInvalid]
  }

  function CanBeDownloadedErrors(flag: BooleanField): seq<FieldError> {
    if flag.Boolean? then [] else [DownloadTypeInvalid]
  }

  /** The list `CreateInputValidation` returns. */
  function CreateErrors(video: CreateVideoInput): seq<FieldError> {
    ResolutionErrors(video.availableResolutions) + TitleErrors(video.title) + AuthorErrors(video.author)
  }

  /** The list `UpdateInputValidation` returns. */
  function UpdateErrors(video: UpdateVideoInput): seq<FieldError> {
    ResolutionErrors(video.availableResolutions) + TitleErrors(video.title) + AuthorErrors(video.author) +
    MinAgeErrors(video.minAgeRestriction) + PublicationDateErrors(video.publicationDate) +
    CanBeDownloadedErrors(video.canBeDownloaded)
  }

  // ---------------------------------------------------------------------------
  // The validators as the router runs them

  /** The empty-list check and the resolution scan, shared verbatim by both validators. */
  method PushResolutionErrors(rs: seq<string>, errors: seq<FieldError>) returns (out: seq<FieldError>)
    ensures out == errors + ResolutionErrors(rs)
  {
    out := errors;
    if |rs| == 0 {
      out := out + [ResolutionsMissing];
    }
    for i := 0 to |rs|
      invariant out == errors + (if |rs| == 0 then [ResolutionsMissing] else [])
      invariant forall j :: 0 <= j < i ==> KnownResolution(rs[j])
    {
      if !KnownResolution(rs[i]) {
        out := out + [ResolutionFormat];
        break;
      }
    }
  }

  method CreateInputValidation(video: CreateVideoInput) returns (errors: seq<FieldError>)
    ensures errors == CreateErrors(video)
  {
    errors := PushResolutionErrors(video.availableResolutions, []);
    if video.title == "" || Utf16Length(video.title) > 40 {
      errors := errors + [TitleInvalid];
    }
    assert errors == ResolutionErrors(video.availableResolutions) + TitleErrors(video.title);
    if video.author == "" || Utf16Length(video.author) > 20 {
      errors := errors + [AuthorInvalid];
    }
  }

  method UpdateInputValidation(video: UpdateVideoInput) returns (errors: seq<FieldError>)
    ensures errors == UpdateErrors(video)
  {
    errors := PushResolutionErrors(video.availableResolutions, []);
    if video.title == "" || Utf16Length(video.title) > 40 {
      errors := errors + [TitleInvalid];
    }
    assert errors == ResolutionErrors(video.availableResolutions) + TitleErrors(video.title);
    if video.author == "" || Utf16Length(video.author) > 20 {
      errors := errors + [AuthorInvalid];
    }
    ghost var before := errors;
    assert before == CreateErrors(CreatePart(video));
    if video.minAgeRestriction != None {
      if video.minAgeRestriction.value < 1 || video.minAgeRestriction.value > 18 {
        errors := errors + [AgeRangeInvalid];
      }
    }
    assert errors == before + MinAgeErrors(video.minAgeRestriction);
    if !IsoPattern.Matches(video.publicationDate) {
      errors := errors + [DateFormatInvalid];
    }
    assert errors == before + MinAgeErrors(video.minAgeRestriction) + PublicationDateErrors(video.publicationDate);
    if !video.canBeDownloaded.Boolean? {
      errors := errors + [DownloadTypeInvalid];
    }
    UpdateErrorsSplit(video);
  }

  // ---------------------------------------------------------------------------
  // What the lists contain and in what order

  /** Position of a field in the fixed reporting order. */
  function FieldRank(field: Field): nat {
    match field
    case AvailableResolutions => 0
    case Title => 1
    case Author => 2
    case MinAgeRestriction => 3
    case PublicationDate => 4
    case CanBeDownloaded => 5
  }

  /** Fields strictly increase along the list, so no field is reported twice. */
  predicate InFieldOrder(errors: seq<FieldError>) {
    forall i, j :: 0 <= i < j < |errors| ==> FieldRank(errors[i].field) < FieldRank(errors[j].field)
  }

  /** The update list is the create list of the shared fields followed by the three update-only checks. */
  lemma UpdateErrorsSplit(video: UpdateVideoInput)
    ensures UpdateErrors(video) ==
      CreateErrors(CreatePart(video)) + MinAgeErrors(video.minAgeRestriction) +
      PublicationDateErrors(video.publicationDate) + CanBeDownloadedErrors(video.canBeDownloaded)
  {
  }

  /** The rank of each error's field; in particular the seven errors are pairwise distinct. */
  lemma ErrorRanks()
    ensures FieldRank(ResolutionsMissing.field) == 0 && FieldRank(ResolutionFormat.field) == 0
    ensures FieldRank(TitleInvalid.field) == 1 && FieldRank(AuthorInvalid.field) == 2
    ensures FieldRank(AgeRangeInvalid.field) == 3 && FieldRank(DateFormatInvalid.field) == 4
    ensures FieldRank(DownloadTypeInvalid.field) == 5
    ensures ResolutionsMissing != ResolutionFormat
  {
    assert |ResolutionsMissing.message| != |ResolutionFormat.message|;
  }

  lemma ResolutionErrorsAtMostOne(rs: seq<string>)
    ensures |ResolutionErrors(rs)| <= 1
    ensures rs == [] ==> ResolutionErrors(rs) == [ResolutionsMissing]
    ensures rs != [] ==> (ResolutionErrors(rs) == [ResolutionFormat] <==> exists i :: 0 <= i < |rs| && rs[i] !in Resolutions)
    ensures rs != [] ==> (ResolutionErrors(rs) == [] <==> forall i :: 0 <= i < |rs| ==> rs[i] in Resolutions)
  {
  }

  /** Joining two ordered lists keeps the order when every field of the first ranks below every field of the second. */
  lemma OrderedAppend(a: seq<FieldError>, b: seq<FieldError>, k: nat)
    requires InFieldOrder(a) && InFieldOrder(b)
    requires forall e :: e in a ==> FieldRank(e.field) < k
    requires forall e :: e in b ==> FieldRank(e.field) >= k
    ensures InFieldOrder(a + b)
  {
    forall i, j | 0 <= i < j < |a + b|
      ensures FieldRank((a + b)[i].field) < FieldRank((a + b)[j].field)
    {
      if j < |a| {
      } else if i >= |a| {
        assert (a + b)[i] == b[i - |a|] && (a + b)[j] == b[j - |a|];
      } else {
        assert (a + b)[i] == a[i] && a[i] in a;
        assert (a + b)[j] == b[j - |a|] && b[j - |a|] in b;
      }
    }
  }

  /** The create list: only the three create checks, in the order resolutions, title, author. */
  lemma CreateErrorsInOrder(video: CreateVideoInput)
    ensures InFieldOrder(CreateErrors(video))
    ensures forall e :: e in CreateErrors(video) ==> FieldRank(e.field) <= 2
  {
    ErrorRanks();
    var r := ResolutionErrors(video.availableResolutions);
    ResolutionErrorsAtMostOne(video.availableResolutions);
    OrderedAppend(r, TitleErrors(video.title), 1);
    OrderedAppend(r + TitleErrors(video.title), AuthorErrors(video.author), 2);
  }

  /** The update list: resolutions, title, author, minAgeRestriction, publicationDate, canBeDownloaded. */
  lemma UpdateErrorsInOrder(video: UpdateVideoInput)
    ensures InFieldOrder(UpdateErrors(video))
  {
    ErrorRanks();
    var c := CreateErrors(CreatePart(video));
    CreateErrorsInOrder(CreatePart(video));
    var m := MinAgeErrors(video.minAgeRestriction);
    var d := PublicationDateErrors(video.publicationDate);
    var f := CanBeDownloadedErrors(video.canBeDownloaded);
    OrderedAppend(c, m, 3);
    OrderedAppend(c + m, d, 4);
    OrderedAppend(c + m + d, f, 5);
    UpdateErrorsSplit(video);
  }

  /** Every create check runs; each error is present exactly when its rule is broken. */
  lemma CreateErrorsExact(video: CreateVideoInput)
    ensures ResolutionsMissing in CreateErrors(video) <==> |video.availableResolutions| == 0
    ensures ResolutionFormat in CreateErrors(video) <==> !AllKnownResolutions(video.availableResolutions)
    ensures TitleInvalid in CreateErrors(video) <==> !(1 <= Utf16Length(video.title) <= 40)
    ensures AuthorInvalid in CreateErrors(video) <==> !(1 <= Utf16Length(video.author) <= 20)
    ensures CreateErrors(video) == [] <==>
      |video.availableResolutions| > 0 && AllKnownResolutions(video.availableResolutions) &&
      1 <= Utf16Length(video.title) <= 40 && 1 <= Utf16Length(video.author) <= 20
  {
  }

  /** The rules an update shares with a create are reported exactly as they are on create. */
  lemma UpdateSharedChecksExact(video: UpdateVideoInput)
    ensures ResolutionsMissing in UpdateErrors(video) <==> |video.availableResolutions| == 0
    ensures ResolutionFormat in UpdateErrors(video) <==> !AllKnownResolutions(video.availableResolutions)
    ensures TitleInvalid in UpdateErrors(video) <==> !(1 <= Utf16Length(video.title) <= 40)
    ensures AuthorInvalid in UpdateErrors(video) <==> !(1 <= Utf16Length(video.author) <= 20)
  {
    var c := CreateErrors(CreatePart(video));
    var rest := MinAgeErrors(video.minAgeRestriction) + PublicationDateErrors(video.publicationDate) +
                CanBeDownloadedErrors(video.canBeDownloaded);
    UpdateErrorsSplit(video);
    assert UpdateErrors(video) == c + rest;
    ErrorRanks();
    assert forall e :: e in rest ==> FieldRank(e.field) >= 3;
    CreateErrorsExact(CreatePart(video));
  }

  /** Each update-only check is reported exactly when its rule is broken. */
  lemma UpdateOwnChecksExact(video: UpdateVideoInput)
    ensures AgeRangeInvalid in UpdateErrors(video) <==>
      video.minAgeRestriction.Some? && (video.minAgeRestriction.value < 1 || video.minAgeRestriction.value > 18)
    ensures DateFormatInvalid in UpdateErrors(video) <==> !IsoPattern.Matches(video.publicationDate)
    ensures DownloadTypeInvalid in UpdateErrors(video) <==> !video.canBeDownloaded.Boolean?
  {
    var c := CreateErrors(CreatePart(video));
    var m := MinAgeErrors(video.minAgeRestriction);
    var d := PublicationDateErrors(video.publicationDate);
    var f := CanBeDownloadedErrors(video.canBeDownloaded);
    UpdateErrorsSplit(video);
    assert UpdateErrors(video) == c + m + d + f;
    CreateErrorsInOrder(CreatePart(video));
    ErrorRanks();
    assert forall e :: e in m ==> e == AgeRangeInvalid;
    assert forall e :: e in d ==> e == DateFormatInvalid;
    assert forall e :: e in f ==> e == DownloadTypeInvalid;
  }

  /** An update body is accepted exactly when it passes the create rules and the three update-only rules. */
  lemma UpdateAcceptedIff(video: UpdateVideoInput)
    ensures UpdateErrors(video) == [] <==>
      |video.availableResolutions| > 0 && AllKnownResolutions(video.availableResolutions) &&
      1 <= Utf16Length(video.title) <= 40 && 1 <= Utf16Length(video.author) <= 20 &&
      (video.minAgeRestriction.Some? ==> 1 <= video.minAgeRestriction.value <= 18) &&
      IsoPattern.Matches(video.publicationDate) && video.canBeDownloaded.Boolean?
  {
    UpdateErrorsSplit(video);
    CreateErrorsExact(CreatePart(video));
  }

  /** The update list starts with exactly the create list of the same three fields. */
  lemma UpdateExtendsCreate(video: UpdateVideoInput)
    ensures CreateErrors(CreatePart(video)) <= UpdateErrors(video)
    ensures forall e :: e in UpdateErrors(video)[|CreateErrors(CreatePart(video))|..] ==> 3 <= FieldRank(e.field) <= 5
  {
  }

  /** A null `minAgeRestriction` is never reported, whatever the other fields hold. */
  lemma NullAgeAccepted(video: UpdateVideoInput)
    requires video.minAgeRestriction == None
    ensures forall e :: e in UpdateErrors(video) ==> e.field != MinAgeRestriction
  {
    var c := CreateErrors(CreatePart(video));
    var rest := PublicationDateErrors(video.publicationDate) + CanBeDownloadedErrors(video.canBeDownloaded);
    UpdateErrorsSplit(video);
    assert UpdateErrors(video) == c + rest;
    assert forall e :: e in c ==> e.field != MinAgeRestriction;
  }

  // ---------------------------------------------------------------------------
  // The bodies the end-to-end tests send

  /** `{ title: '', author: '', availableResolutions: [] }` on create. */
  lemma InvalidCreateExample()
    ensures CreateErrors(CreateVideoInput("", "", [])) == [ResolutionsMissing, TitleInvalid, AuthorInvalid]
  {
  }

  /** The all-wrong update body: six errors in the fixed order. */
  lemma InvalidUpdateExample()
    ensures UpdateErrors(UpdateVideoInput("", "", [], NotBoolean, Some(20), "test")) ==
      [ResolutionsMissing, TitleInvalid, AuthorInvalid, AgeRangeInvalid, DateFormatInvalid, DownloadTypeInvalid]
  {
    IsoPattern.RejectsTest();
  }
}
