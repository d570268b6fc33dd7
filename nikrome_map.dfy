/**
 * The `NikromeMap` component's own state: the modal's fields, the loaded
 * runner data, and the three methods that change them (the data load
 * callback, `openModal`, `closeModal`), plus the route drawing on a map
 * surface that records the polylines put on it.
 */
module NikromeMapComponent {
  import opened Wrappers
  import opened JsText
  import opened CheckpointFilter
  import opened RouteRenderer

  /** The map surface as far as the route drawing touches it: the polylines added to it. */
  class MapSurface {
    var polylines: seq<Polyline>

    constructor ()
      ensures polylines == []
    {
      polylines := [];
    }

    /** `L.polyline(path, style).addTo(map)`. */
    method AddPolyline(line: Polyline)
      modifies this
      ensures polylines == old(polylines) + [line]
    {
      polylines := polylines + [line];
    }
  }

  class NikromeMap {
    var isModalOpen: bool
    var modalTitle: string
    var modalHeaders: seq<string>
    var modalMenData: seq<seq<Cell>>
    var modalWomenData: seq<seq<Cell>>
    var runnerData: Option<RunnerData>

    /** An open modal always shows a table built from loaded data. */
    ghost predicate Valid()
      reads this
    {
      isModalOpen ==> runnerData.Some? && modalHeaders == RelevantHeaders
    }

    /** The field initialisers: a closed, empty modal and no data yet. */
    constructor ()
      ensures Valid()
      ensures !isModalOpen && modalTitle == "" && modalHeaders == []
      ensures modalMenData == [] && modalWomenData == [] && runnerData == None
    {
      isModalOpen := false;
      modalTitle := "";
      modalHeaders := [];
      modalMenData := [];
      modalWomenData := [];
      runnerData := None;
    }

    /** The subscription callback of the dataset load: keeps the data; nothing else changes. */
    method ReceiveRunnerData(data: RunnerData)
      requires Valid()
      modifies this
      ensures Valid()
      ensures runnerData == Some(data)
      ensures isModalOpen == old(isModalOpen) && modalTitle == old(modalTitle)
      ensures modalHeaders == old(modalHeaders)
      ensures modalMenData == old(modalMenData) && modalWomenData == old(modalWomenData)
    {
      runnerData := Some(data);
    }

    /**
     * A click on the popup of `checkpoint`. Before the data has loaded it
     * changes nothing; afterwards it fills the modal with the view of the
     * data for that checkpoint and opens it, leaving the data as it was.
     */
    method OpenModal(checkpoint: string)
      requires Valid()
      modifies this
      ensures Valid()
      ensures old(runnerData).None? ==> unchanged(this) && !isModalOpen
      ensures runnerData == old(runnerData)
      ensures old(runnerData).Some? ==>
        var v := CheckpointView(runnerData.value, checkpoint);
        && modalTitle == v.title
        && modalHeaders == v.headers
        && modalMenData == v.menData
        && modalWomenData == v.womenData
        && isModalOpen
    {
      if runnerData.None? {
        return;
      }
      var rd := runnerData.value;
      var columnIndex := IndexOf(rd.headers, checkpoint);
      var headerIndices := new int[|RelevantHeaders|](
        k requires 0 <= k < |RelevantHeaders| => IndexOf(rd.headers, RelevantHeaders[k]));
      var classSxIndex := IndexOf(rd.headers, ClassSx);
      headerIndices[TimeSlot] := columnIndex;
      assert headerIndices[..] == HeaderIndices(rd.headers, checkpoint) by {
        HeaderIndicesListed(rd.headers, checkpoint);
      }

      var allData := ProjectAll(rd.data, headerIndices[..]);
      modalMenData := Select(allData, MarkerMask(rd.data, classSxIndex, MaleMarker));
      modalWomenData := Select(allData, MarkerMask(rd.data, classSxIndex, FemaleMarker));

      var totalRunners := |rd.data|;
      var runnersWithTime := |Select(rd.data, TimeMask(rd.data, columnIndex))|;

      modalTitle := Title(checkpoint, runnersWithTime, totalRunners);
      modalHeaders := RelevantHeaders;
      isModalOpen := true;
    }

    /** Dismissing the modal closes it and changes nothing else. */
    method CloseModal()
      requires Valid()
      modifies this`isModalOpen
      ensures Valid()
      ensures !isModalOpen
    {
      isModalOpen := false;
    }

    /**
     * Draws the route through `points` once the OSRM lookup settled with
     * `response`: exactly one polyline is added to the map surface, the road route
     * when one is usable and the dashed straight line otherwise.
     */
    method DrawRouteAlongRoads(surface: MapSurface, points: seq<Point>, response: Response)
      modifies surface
      ensures surface.polylines == old(surface.polylines) + [RoutePath(points, response)]
      ensures RouteUsable(response) ==> !surface.polylines[|surface.polylines| - 1].dashed
      ensures !RouteUsable(response) ==> surface.polylines[|surface.polylines| - 1] == Polyline(StraightLine(points), true)
    {
      var line: Polyline;
      if response.Threw? {
        // the catch block
        line := Polyline(StraightLine(points), true);
      } else if RouteFound(response) {
        var route := response.routes.value[0];
        if route.coordinates.None? {
          // reading `route.geometry.coordinates` threw: the catch block
          line := Polyline(StraightLine(points), true);
        } else {
          line := Polyline(SwapAxes(route.coordinates.value), false);
        }
      } else {
        line := Polyline(StraightLine(points), true);
      }
      surface.AddPolyline(line);
    }
  }

  /** A second click on the same checkpoint leaves the modal exactly as the first left it. */
  method OpenModalTwice(c: NikromeMap, checkpoint: string)
    requires c.Valid()
    modifies c
    ensures c.Valid()
    ensures old(c.runnerData).None? ==> unchanged(c) && !c.isModalOpen
    ensures c.runnerData == old(c.runnerData)
    ensures old(c.runnerData).Some? ==>
      var v := CheckpointView(old(c.runnerData).value, checkpoint);
      && c.modalTitle == v.title && c.modalHeaders == v.headers
      && c.modalMenData == v.menData && c.modalWomenData == v.womenData && c.isModalOpen
  {
    c.OpenModal(checkpoint);
    ghost var first := (c.modalTitle, c.modalHeaders, c.modalMenData, c.modalWomenData, c.isModalOpen);
    c.OpenModal(checkpoint);
    assert c.runnerData.Some? ==>
      (c.modalTitle, c.modalHeaders, c.modalMenData, c.modalWomenData, c.isModalOpen) == first;
  }
}
