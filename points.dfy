/** The plain 2D and 3D points the camera models exchange. */
module Points {
  /** A point in the image plane. */
  datatype Point2 = Point2(x: real, y: real)

  /** A point in space. */
  datatype Point3 = Point3(x: real, y: real, z: real)
}
