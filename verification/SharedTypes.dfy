/** Value types shared by the mission-planning modules. */
module SharedTypes {

  datatype Option<+T> = None | Some(value: T)

  datatype Result<+T, +E> = Ok(value: T) | Err(error: E)

  /** The outcome of an action that can only succeed or fail. */
  datatype Outcome<+E> = Pass | Fail(error: E)

  /** One route waypoint; angles in degrees, altitude in metres, loiter time in seconds. */
  datatype Waypoint = Waypoint(
    seq_: int,
    lat: real,
    lon: real,
    altitude: real,
    speed: real,
    gimbalAngle: real,
    loiterTime: real
  )

  /** Decimal notation. */
  function Decimal(n: nat): (s: string)
    ensures s != [] && forall c :: c in s ==> '0' <= c <= '9'
  {
    if n < 10 then [('0' as int + n) as char] else Decimal(n / 10) + Decimal(n % 10)
  }

  function Undecimal(s: string): int {
    if s == [] then 0 else 10 * Undecimal(s[..|s| - 1]) + (s[|s| - 1] as int - '0' as int)
  }

  lemma {:induction false} DecimalReadsBack(n: nat)
    ensures Undecimal(Decimal(n)) == n
  {
    if n >= 10 {
      DecimalReadsBack(n / 10);
      var s := Decimal(n);
      assert s[..|s| - 1] == Decimal(n / 10) && s[|s| - 1] == ('0' as int + n % 10) as char;
    } else {
      assert Undecimal([]) == 0;
      assert Decimal(n)[..0] == [];
    }
  }
}
