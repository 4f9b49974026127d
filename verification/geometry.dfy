/** Exact 3-D vector arithmetic over the reals, standing in for Blender's
    `mathutils.Vector`. Every operation the rig fix-ups perform on vectors is a
    copy, a sum, a difference, a scaling or a sign flip, so real numbers give
    the same post-states the float code intends. The x axis is the lateral
    (left/right) axis of the avatar. */
module Geometry {

  datatype Vec3 = Vec3(x: real, y: real, z: real)

  function Add(a: Vec3, b: Vec3): Vec3 {
    Vec3(a.x + b.x, a.y + b.y, a.z + b.z)
  }

  function Sub(a: Vec3, b: Vec3): Vec3 {
    Vec3(a.x - b.x, a.y - b.y, a.z - b.z)
  }

  function Scale(a: Vec3, k: real): Vec3 {
    Vec3(a.x * k, a.y * k, a.z * k)
  }

  function Cross(a: Vec3, b: Vec3): Vec3 {
    Vec3(a.y * b.z - a.z * b.y, a.z * b.x - a.x * b.z, a.x * b.y - a.y * b.x)
  }

  /** The mean of three points (`(a + b + c) / 3`). */
  function Centroid(a: Vec3, b: Vec3, c: Vec3): Vec3 {
    Vec3((a.x + b.x + c.x) / 3.0, (a.y + b.y + c.y) / 3.0, (a.z + b.z + c.z) / 3.0)
  }

  /** Reflection across the sagittal plane x = 0: copy the vector, then negate x. */
  function Mirror(v: Vec3): Vec3 {
    Vec3(-v.x, v.y, v.z)
  }
}
