/** Going round a table from a pin, as getmlfqproc and nextthd do. */
module Circle {

  /** The entry `d` places after the pin, around the table; the pin itself comes last, at n. */
  function At(pin: nat, d: nat, n: nat): nat
    requires pin < n && 1 <= d <= n
  {
    if pin + d < n then pin + d else pin + d - n
  }

  /** How far after the pin entry `w` comes. */
  function Gap(pin: nat, w: nat, n: nat): (d: nat)
    requires pin < n && w < n
    ensures 1 <= d <= n && At(pin, d, n) == w
  {
    if w > pin then w - pin else w + n - pin
  }
}
