/**
 The hit record threaded through an intersection test: the best hit time so
 far and the surface normal reported with it.
 */
module HitRecords {
  import opened Glm

  /** What an accepted intersection writes into a record. */
  datatype Hit = Hit(time: real, normal: Vec3)

  class HitRecord {
    var time: real
    var normal: Vec3

    /** A fresh record: its time lies beyond every finite float hit. */
    constructor ()
      ensures time == FloatMax && normal == Zero
    {
      time := FloatMax;
      normal := Zero;
    }
  }
}
