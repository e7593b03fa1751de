/** The tutorial index the search runs over, and the fixed suggestion chips. */
module Records {

  /**
   * One entry of `window.TUTORIAL_INDEX`. A missing `title`, `transcript` or
   * `section` is the empty string (the source reads each through `|| ''`);
   * `keywords` that are not an array are the empty list.
   */
  datatype Record = Record(title: string, transcript: string, keywords: seq<string>, section: string)

  /** `SUGGESTIONS`: the chips shown while the input is empty (search-wrapper.js). */
  const Suggestions: seq<string> := ["new project", "learning objectives", "project labels", "mcq", "curriculum"]
}
