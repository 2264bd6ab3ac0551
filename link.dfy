/** A link between two notes (emergence_zk/src/link.rs). */
module Links {
  import Id

  /** `Link`: the note the link is written in and the note it points to. */
  datatype Link = Link(source: Id.ZettelId, dest: Id.ZettelId)
}
