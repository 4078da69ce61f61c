/** The optional value used wherever the editor reads something that may be missing
    (an absent key of a partial caption, `captions[selectedCaption]?.…` past the end,
    `acceptedFiles[0]` of an empty drop). */
module Wrappers {

  datatype Option<+T> = None | Some(value: T) {

    /** The wrapped value, or `default` when there is none. */
    function GetOr(default: T): (r: T) {
      match this
      case Some(v) => v
      case None => default
    }
  }
}
