/** A reader that hands out at most a given number of bytes and tells an exact fit from an overrun. */
module BudgetReader {
  datatype End = Open | Eof | Broken | OverBudget

  /** An `io.Reader` over fixed content. It may return fewer bytes than asked for, none at all, and its
      end together with the last bytes or after them; `chunks` decides. */
  class Source {
    const data: seq<bv8>
    const chunks: nat -> nat
    const endsEagerly: nat -> bool
    const breaksAt: int
    var pos: nat
    var calls: nat

    ghost predicate Valid()
      reads this
    {
      pos <= |data|
    }

    constructor (data: seq<bv8>, chunks: nat -> nat, endsEagerly: nat -> bool, breaksAt: int)
      ensures Valid() && pos == 0 && this.data == data
    {
      this.data := data;
      this.chunks := chunks;
      this.endsEagerly := endsEagerly;
      this.breaksAt := breaksAt;
      pos, calls := 0, 0;
    }

    method Read(want: nat) returns (got: seq<bv8>, end: End)
      requires Valid()
      modifies this
      ensures Valid() && pos == old(pos) + |got| && got == data[old(pos)..pos] && |got| <= want
      ensures end != OverBudget
      ensures end == Eof ==> pos == |data|
    {
      var n := chunks(calls);
      if n > want {
        n := want;
      }
      if n > |data| - pos {
        n := |data| - pos;
      }
      got := data[pos..pos + n];
      pos := pos + n;
      end := if calls as int == breaksAt then Broken
             else if pos == |data| && (n == 0 || endsEagerly(calls)) then Eof else Open;
      calls := calls + 1;
    }
  }

  class Reader {
    const source: Source
    const limit: int
    var consumed: nat
    var exceeded: bool
    ghost var handed: seq<bv8>

    /** What has been handed out so far is a prefix of the content, within the limit; once the budget is
        exceeded the content is known to be longer than the limit. */
    ghost predicate Valid()
      reads this, source
    {
      && source.Valid() && consumed == |handed| && consumed <= source.pos
      && handed <= source.data
      && (limit > 0 ==> consumed <= limit)
      && (if exceeded then limit > 0 && consumed == limit && |source.data| > limit else consumed == source.pos)
    }

    constructor (source: Source, limit: int)
      requires source.Valid() && source.pos == 0
      ensures Valid() && handed == [] && this.source == source && this.limit == limit
    {
      this.source := source;
      this.limit := limit;
      consumed, exceeded := 0, false;
      handed := [];
    }

    /** However the source cuts its content, an end of stream is reported only when all of it has been
        handed out within the limit, and a budget error only when it is longer than the limit and
        everything up to the limit has been handed out. */
    method Read(want: nat) returns (got: seq<bv8>, end: End)
      requires Valid()
      modifies this, source
      ensures Valid()
      ensures handed == old(handed) + got && |got| <= want
      ensures end == Eof ==> handed == source.data && (limit > 0 ==> |source.data| <= limit)
      ensures end == OverBudget <==> exceeded
      ensures end == OverBudget ==> got == [] && limit > 0 && |source.data| > limit && handed == source.data[..limit]
      ensures old(exceeded) ==> end == OverBudget
    {
      if exceeded {
        return [], OverBudget;
      }
      if limit > 0 && consumed >= limit {
        var probe, sourceEnd := source.Read(1);
        if |probe| > 0 {
          exceeded := true;
          return [], OverBudget;
        }
        return [], sourceEnd;
      }
      var ask := want;
      if limit > 0 {
        var remaining := limit - consumed;
        if ask > remaining {
          ask := remaining;
        }
      }
      got, end := source.Read(ask);
      consumed := consumed + |got|;
      handed := handed + got;
    }
  }
}
