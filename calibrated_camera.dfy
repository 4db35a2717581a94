/**
 * The projection arithmetic of CalibratedCamera.cpp: the pinhole division
 * by depth, its inverse at a given scale, and the cheirality guard of
 * project. The pose transform that produces the camera-frame point is
 * Pose3's and is taken here as already applied.
 */
module CalibratedCameras {
  import opened Wrappers
  import opened Points

  /** project_to_camera(P) = (P.x / P.z, P.y / P.z). */
  function ProjectToCamera(P: Point3): (p: Point2)
    requires P.z != 0.0
    ensures p.x * P.z == P.x && p.y * P.z == P.y
  {
    Point2(P.x / P.z, P.y / P.z)
  }

  /** backproject_from_camera(p, scale) = (p.x scale, p.y scale, scale). */
  function BackprojectFromCamera(p: Point2, scale: real): (P: Point3)
    ensures P.z == scale
    ensures scale != 0.0 ==> ProjectToCamera(P) == p
  {
    Point3(p.x * scale, p.y * scale, scale)
  }

  /** Every point off the image plane is the back-projection of its projection at its own depth. */
  lemma BackprojectProject(P: Point3)
    requires P.z != 0.0
    ensures BackprojectFromCamera(ProjectToCamera(P), P.z) == P
  {
  }

  /**
   * project(point) once the pose has taken the point to camera coordinates q:
   * a point on or behind the image plane throws CheiralityException.
   */
  function Project(q: Point3): (r: Result<Point2>)
    ensures r.Err? <==> q.z <= 0.0
    ensures r.Err? ==> r.error == CheiralityException
    ensures r.Ok? ==> BackprojectFromCamera(r.value, q.z) == q
  {
    if q.z <= 0.0 then Err(CheiralityException) else Ok(ProjectToCamera(q))
  }
}
