/** The kernel's routing table, as babeld drives it (babeld/kernel.c).  Requests to the
    kernel are taken to succeed. */
module KernelFib {
  import opened BabelTypes

  const KERNEL_INFINITY := 0xFFFF

  datatype FibEntry = FibEntry(dest: Dest, gate: Addr, ifindex: int, metric: int)

  class Kernel {
    var fib: set<FibEntry>

    constructor ()
      ensures fib == {}
    {
      fib := {};
    }

    /** kernel_route(ROUTE_ADD) */
    method Add(e: FibEntry)
      modifies this
      ensures fib == old(fib) + {e}
    {
      fib := fib + {e};
    }

    /** kernel_route(ROUTE_FLUSH) */
    method Flush(e: FibEntry)
      modifies this
      ensures fib == old(fib) - {e}
    {
      fib := fib - {e};
    }

    /** kernel_route(ROUTE_MODIFY): nothing to do if the gateway, interface and metric stay;
        otherwise delete and add. */
    method Modify(e: FibEntry, e': FibEntry)
      requires e.dest == e'.dest && e in fib
      modifies this
      ensures fib == old(fib) - {e} + {e'}
    {
      if e'.metric == e.metric && e'.gate == e.gate && e'.ifindex == e.ifindex { return; }
      Flush(e);
      Add(e');
    }
  }
}
