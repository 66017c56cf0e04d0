/** The input description of a celestial body: an immutable tree of bodies, each with its
    own dynamics, mass and spin, and an ordered list of satellites. The file that defines
    it in the engine is not part of this model; its shape is rebuilt from its uses. */
module Bodies {
  import opened DecimalVector

  /** A body either sits at a fixed position or follows a circular orbit around its
      parent, of the given radius and period, in the plane with the given normal. */
  datatype Dynamics =
    | Static(position: Vector3)
    | Orbiting(orbitRadius: real, orbitPeriod: real, orbitPlaneNormal: Vector3)

  datatype Body = Body(
    name: string,
    dynamics: Dynamics,
    mass: real,
    rotationAxis: Vector3,
    rotationPeriod: real,
    satellites: seq<Body>)

  /** Number of bodies in the tree rooted at `b`. */
  function Size(b: Body): nat
    decreases b, 1
  {
    1 + SizeOf(b.satellites)
  }

  /** Number of bodies in a list of trees, counted from the last one backwards. */
  function SizeOf(bs: seq<Body>): nat
    decreases bs, 0
  {
    if bs == [] then 0 else SizeOf(bs[..|bs| - 1]) + Size(bs[|bs| - 1])
  }
}
