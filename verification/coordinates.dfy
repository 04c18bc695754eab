/**
 * Latitudes and longitudes. The app stores them as `Double`; the model uses
 * the reals, which give the same equality and total order on the finite
 * values a map gesture can produce. Their decimal rendering
 * (`Double.description`) is not modelled: operations that need it take it
 * as a parameter.
 */
module Coordinates {

  type Coord = real

  /** The rendering of a coordinate as text, supplied by the caller. */
  type Describe = Coord -> string
}
