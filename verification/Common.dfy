/** Small vocabulary shared by every component of the model. */
module Common {

  datatype Option<+T> = None | Some(value: T) {
    function GetOr(default: T): T {
      match this
      case Some(v) => v
      case None => default
    }
  }

  /** The outcome of an atomic document save. The file is written aside, renamed and
      its directory synchronised; the last step can fail after the rename, so a failed
      save leaves either the old or the new document behind. */
  datatype Save = Saved | LostOld | LostNew {
    /** What the file holds afterwards. */
    function OnDisk<T>(before: T, next: T): T {
      if LostOld? then before else next
    }
  }

  function Min(a: int, b: int): int { if a <= b then a else b }

  function Max(a: int, b: int): int { if a <= b then b else a }
}
