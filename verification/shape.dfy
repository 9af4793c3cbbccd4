/** Materials (src/illumination/material.h) and the shape interface
    `IShape` (src/interfaces/ishape.h) as a bundle of its queries. */
module Shapes {
  import opened Vector3D
  import opened Rays
  import opened Intersection
  import opened Textures

  datatype Option<T> = None | Some(value: T)

  /** A Phong material. */
  datatype Mtrl = Mtrl(
    emissiveColor: Vec3D,
    ambColor: Vec3D,
    difColor: Vec3D,
    spcColor: Vec3D,
    spcPower: real,
    difTexture: Option<Texture>,
    refraction: real,
    reflection: real,
    density: real,
    illumination: real,
    texScaleU: real,
    texScaleV: real)

  /** A scene object seen through `IShape`: what each virtual query answers.
      The primitives' analytic formulas are not part of this model, so each
      query is an arbitrary function; `light` is the flag that
      `setIsLight` writes and `isLight` reads. */
  datatype Shape = Shape(
    intersect: Ray -> CIsect,
    mtrl: Option<Mtrl>,
    normal: (Ray, real, CIsect) -> Vec3D,
    light: bool,
    ambColor: (Vec3D, CIsect) -> Vec3D,
    difColor: (Vec3D, CIsect) -> Vec3D,
    spcColor: (Vec3D, CIsect) -> Vec3D,
    texCoords: (Vec3D, CIsect) -> Vec3D)
}
