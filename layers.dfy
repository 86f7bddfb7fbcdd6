/** The two scene layers the world generator hands objects to
    (danogl's Layer.BACKGROUND and Layer.STATIC_OBJECTS). */
module Layers {

  datatype Layer = Background | StaticObjects
}
