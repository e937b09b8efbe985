/** The timed segments of one agenda column and the graph of their collisions. */
module SlotSegs {
  import opened Wrappers

  /** A slot segment: the part of event `event` that shows in the column. Times are minutes, `title` is the rank of the
      event's title in the locale's order. */
  class SlotSeg {
    const event: nat
    const start: int
    const end: int
    const title: int
    const isStart: bool
    const isEnd: bool
    var forwardSegs: seq<SlotSeg>
    var forwardPressure: Option<nat>
    var forwardCoord: Option<real>
    var backwardCoord: Option<real>

    constructor (event: nat, start: int, end: int, title: int, isStart: bool, isEnd: bool)
      ensures this.event == event && this.start == start && this.end == end && this.title == title
      ensures this.isStart == isStart && this.isEnd == isEnd
      ensures forwardSegs == [] && forwardPressure.None? && forwardCoord.None? && backwardCoord.None?
    {
      this.event, this.start, this.end, this.title := event, start, end, title;
      this.isStart, this.isEnd := isStart, isEnd;
      forwardSegs, forwardPressure, forwardCoord, backwardCoord := [], None, None, None;
    }
  }

  predicate Hits(a: SlotSeg, b: SlotSeg) {
    a.end > b.start && a.start < b.end
  }

  /** compareSlotSegs(a, b) < 0: earlier start, then longer duration, then title. */
  predicate Precedes(a: SlotSeg, b: SlotSeg) {
    if a.start != b.start then a.start < b.start
    else if a.end - a.start != b.end - b.start then a.end - a.start > b.end - b.start
    else a.title < b.title
  }
}
