/** struct timeval and the operations kernel/network/tcp.c uses on it, against plain microseconds. */
module TimeVals {

  datatype TimeVal = TimeVal(sec: int, usec: int) {

    predicate Normal()
    {
      0 <= usec < 1000000
    }

    function Micros(): int
    {
      sec * 1000000 + usec
    }
  }

  /** timeval_add_usec */
  function AddUsec(t: TimeVal, y: nat): (r: TimeVal)
    requires t.Normal()
    ensures r.Normal() && r.Micros() == t.Micros() + y
  {
    var r := TimeVal(t.sec + y / 1000000, t.usec + y % 1000000);
    if r.usec >= 1000000 then TimeVal(r.sec + 1, r.usec - 1000000) else r
  }

  /** timersub */
  function Sub(a: TimeVal, b: TimeVal): (r: TimeVal)
    requires a.Normal() && b.Normal()
    ensures r.Normal() && r.Micros() == a.Micros() - b.Micros()
  {
    var r := TimeVal(a.sec - b.sec, a.usec - b.usec);
    if r.usec < 0 then TimeVal(r.sec - 1, r.usec + 1000000) else r
  }

  /** timercmp(a, b, >) */
  predicate After(a: TimeVal, b: TimeVal)
    requires a.Normal() && b.Normal()
    ensures After(a, b) <==> a.Micros() > b.Micros()
  {
    if a.sec == b.sec then a.usec > b.usec else a.sec > b.sec
  }
}
