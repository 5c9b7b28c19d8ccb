/** The record shapes of the planet catalogue. */
module PlanetTypes {

  /** A planet as the SWAPI `/planets/` endpoint returns it. Every physical quantity is a string,
      with the word "unknown" where the data is missing. The JSON keys are the snake_case forms of
      these names (`rotation_period`, `orbital_period`, `surface_water`). */
  datatype SwapiPlanet = SwapiPlanet(
    name: string,
    rotationPeriod: string,
    orbitalPeriod: string,
    diameter: string,
    climate: string,
    gravity: string,
    terrain: string,
    surfaceWater: string,
    population: string,
    residents: seq<string>,
    films: seq<string>,
    created: string,
    edited: string,
    url: string)

  /** A planet as the application shows it: `name`, `climate`, `gravity`, `terrain` and `url` taken
      over from the raw record, the numeric fields parsed (0 standing for "unknown"), the raw
      population and diameter strings kept for display, and the derived distance from the sun. */
  datatype Planet = Planet(
    name: string,
    climate: string,
    gravity: string,
    terrain: string,
    url: string,
    id: nat,
    population: real,
    populationString: string,
    orbitalPeriod: real,
    distanceFromSun: real,
    diameter: real,
    diameterString: string)
}
