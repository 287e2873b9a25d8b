/** The shapes of the videos resource: the stored record as the handlers send
    it, and the two request bodies (CreateVideoInputModel and
    UpdateVideoInputModel). Request bodies keep the raw values whose type or
    membership the validators test: resolutions are plain strings, and
    `canBeDownloaded` may be something other than a boolean. */
module VideoTypes {

  /** `T | null` */
  datatype Option<+T> = None | Some(value: T)

  /** The string values of the `Resolutions` enumeration, in declaration order. */
  const Resolutions: seq<string> := ["P144", "P240", "P360", "P480", "P720", "P1080", "P1440", "P2160"]

  /** A video record, field for field as it is stored and as `res.json` sends it. */
  datatype VideoView = VideoView(
    id: int,
    title: string,
    author: string,
    canBeDownloaded: bool,
    minAgeRestriction: Option<int>,
    createdAt: string,
    publicationDate: string,
    availableResolutions: seq<string>)

  /** The body of a create request. */
  datatype CreateVideoInput = CreateVideoInput(
    title: string,
    author: string,
    availableResolutions: seq<string>)

  /** The value of `canBeDownloaded` in an update body: a boolean, or a value
      of any other JSON type (whose `typeof` is not 'boolean'). */
  datatype BooleanField = Boolean(value: bool) | NotBoolean

  /** The body of an update request. */
  datatype UpdateVideoInput = UpdateVideoInput(
    title: string,
    author: string,
    availableResolutions: seq<string>,
    canBeDownloaded: BooleanField,
    minAgeRestriction: Option<int>,
    publicationDate: string)

  /** The three fields an update body shares with a create body. */
  function CreatePart(u: UpdateVideoInput): CreateVideoInput {
    CreateVideoInput(u.title, u.author, u.availableResolutions)
  }
}
