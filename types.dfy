/**
 * The records the GitHub layer works on: repositories and activity events as
 * the GitHub REST API delivers them, and the `Project` the site displays.
 * A JavaScript `null`, `undefined` or empty string in a text field is the
 * empty string here, since every rule of the layer treats them alike.
 */
module Types {
  import opened Wrappers

  /**
   * One repository of the upstream listing; `updatedAt` is in milliseconds
   * since the epoch and `updatedLabel` is its `id-ID` locale date.
   */
  datatype Repo = Repo(
    id: nat,
    name: string,
    fullName: string,
    description: string,
    htmlUrl: string,
    language: string,
    topics: seq<string>,
    stars: nat,
    homepage: string,
    fork: bool,
    isPrivate: bool,
    updatedAt: int,
    updatedLabel: string)

  /** A project card, as in `lib/types.ts`. */
  datatype Project = Project(
    id: string,
    name: string,
    description: string,
    technologies: seq<string>,
    githubUrl: string,
    demoUrl: Option<string>,
    stars: int,
    lastUpdated: string,
    featured: bool,
    relatedCertificates: seq<string>)

  /** The first entries of a push event's commit list; absent fields are empty strings. */
  datatype Commit = Commit(message: string, sha: string)

  /**
   * One public activity event. `createdAt` is the raw timestamp text; `day`
   * (local calendar day number), `month` (year * 12 + zero-based month) and
   * `dateLabel` (the `id-ID` locale date) are what the JavaScript `Date`
   * calls derive from it. `commits` is `payload.commits`, if present.
   */
  datatype Event = Event(
    kind: string,
    repoName: Option<string>,
    createdAt: string,
    day: int,
    month: int,
    dateLabel: string,
    commits: Option<seq<Commit>>)

  /** A parsed JSON body: an array of records, or any other JSON value. */
  datatype Json<T> = JArray(items: seq<T>) | JOther

  /** HTTP `response.ok`. */
  predicate IsOk(status: int) {
    200 <= status <= 299
  }
}
