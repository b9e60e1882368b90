/** The recognition results the native engine hands back (openalpr/AlprResult.java,
    PlateResult.java, Plate.java, LaneDetectorResult.java) as plain values. */
module Openalpr {
  import opened Wrappers

  datatype Point = Point(x: int, y: int)

  /** One candidate reading of a plate, with the engine's confidence in percent. */
  datatype Plate = Plate(plate: string, confidence: real)

  datatype PlateResult = PlateResult(
    bestPlate: Option<Plate>,
    otherCandidates: seq<Plate>,
    processingTimeInMs: int,
    plateCoordinates: Option<seq<Point>>,
    plateIndex: int)

  /** `plates` holds one entry per plate found; an entry may be null. */
  datatype AlprResult = AlprResult(
    totalProcessingTime: int,
    sourceWidth: int,
    sourceHeight: int,
    plates: seq<Option<PlateResult>>)

  datatype LaneDetectorResult = LaneDetectorResult(thickness: real, plateCoordinates: seq<Point>)

  /** The AlprResult constructor: a null array of plate results becomes the empty list. */
  function NewAlprResult(plateResults: Option<seq<Option<PlateResult>>>, totalProcessingTime: int,
                         sourceWidth: int, sourceHeight: int): (r: AlprResult)
    ensures r.plates == if plateResults.None? then [] else plateResults.value
    ensures r.totalProcessingTime == totalProcessingTime
    ensures r.sourceWidth == sourceWidth && r.sourceHeight == sourceHeight
  {
    AlprResult(totalProcessingTime, sourceWidth, sourceHeight,
               match plateResults case None => [] case Some(ps) => ps)
  }

  /** The PlateResult constructor: a null array of other candidates becomes the empty list. */
  function NewPlateResult(bestPlate: Option<Plate>, otherCandidates: Option<seq<Plate>>,
                          processingTimeInMs: int, plateCoordinates: Option<seq<Point>>,
                          plateIndex: int): (r: PlateResult)
    ensures r.otherCandidates == if otherCandidates.None? then [] else otherCandidates.value
    ensures r.bestPlate == bestPlate && r.plateCoordinates == plateCoordinates
    ensures r.processingTimeInMs == processingTimeInMs && r.plateIndex == plateIndex
  {
    PlateResult(bestPlate, match otherCandidates case None => [] case Some(cs) => cs,
                processingTimeInMs, plateCoordinates, plateIndex)
  }
}
