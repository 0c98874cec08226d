/** The redistributed routes (babeld/xroute.c): an array without order, from which an entry
    is removed by moving the last one into its place. */
module XrouteTable {
  import opened Seqno
  import opened BabelTypes

  datatype Xroute = Xroute(dest: Dest, metric: u16, ifindex: int, proto: int)

  /** The array, without repeated prefixes, holds exactly `view`. */
  ghost predicate Lists(list: seq<Xroute>, view: map<Dest, Xroute>) {
    && (forall i, j | 0 <= i < j < |list| :: list[i].dest != list[j].dest)
    && (forall i | 0 <= i < |list| :: list[i].dest in view && view[list[i].dest] == list[i])
    && (forall d <- view :: view[d] in list && view[d].dest == d)
  }

  class Xroutes {
    var list: seq<Xroute>
    ghost var view: map<Dest, Xroute>

    ghost predicate Valid()
      reads this
    {
      Lists(list, view)
    }

    constructor ()
      ensures Valid() && view == map[]
    {
      list, view := [], map[];
    }

    /** find_xroute */
    method Find(d: Dest) returns (i: nat)
      requires Valid()
      ensures i <= |list| && (i < |list| <==> d in view)
      ensures i < |list| ==> list[i] == view[d]
    {
      i := 0;
      while i < |list| && list[i].dest != d
        invariant i <= |list| && forall j | 0 <= j < i :: list[j].dest != d
      {
        i := i + 1;
      }
    }

    /** flush_xroute */
    method Flush(i: nat)
      requires Valid() && i < |list|
      modifies this
      ensures Valid() && view == old(view) - {old(list)[i].dest}
    {
      ghost var d := list[i].dest;
      var n := |list| - 1;
      ghost var was := list;
      if i != n { list := list[i := list[n]]; }
      list := list[..n];
      view := view - {d};
      forall x <- view
        ensures view[x] in list
      {
        var j :| 0 <= j < |was| && was[j] == view[x];
        assert j != i;
        assert list[if j == n then i else j] == view[x];
      }
    }

    /** add_xroute: 1 if the table changed */
    method Add(x: Xroute) returns (rc: int)
      requires Valid()
      modifies this
      ensures Valid()
      ensures if x.dest in old(view) && old(view)[x.dest].metric <= x.metric then rc == 0 && view == old(view)
              else rc == 1 && view == old(view)[x.dest :=
                     if x.dest in old(view) then old(view)[x.dest].(metric := x.metric) else x]
    {
      var i := Find(x.dest);
      ghost var was := list;
      if i < |list| {
        if list[i].metric <= x.metric { return 0; }
        list := list[i := list[i].(metric := x.metric)];
        view := view[x.dest := list[i]];
        forall d <- view
          ensures view[d] in list
        {
          if d == x.dest {
            assert list[i] == view[d];
          } else {
            var j :| 0 <= j < |was| && was[j] == view[d];
            assert list[j] == view[d];
          }
        }
      } else {
        list := list + [x];
        view := view[x.dest := x];
        assert list[|was|] == x && forall j | 0 <= j < |was| :: list[j] == was[j];
      }
      rc := 1;
    }
  }
}
