/** The input records shared by the glue script and the Rust side. */
module Input {
  import opened Wrappers
  import opened Geometry

  /** The modifier flags recorded for a held key (`WebKeyEvent`). */
  datatype WebKeyEvent = WebKeyEvent(alt: bool, ctrl: bool, meta: bool, shift: bool, repeat: bool)

  /** The two click slots: slot 0 for the primary button, slot 1 for the context menu. */
  type Slots = s: seq<Option<Vector>> | |s| == 2 witness [None, None]
}
