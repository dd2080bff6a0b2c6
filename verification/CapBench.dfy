/**
 The bench around the CAP fixture test: host switches, the CAP's own channel switches, and the control
 bus between them. Every operation may fail; which ones do is the environment's choice.
 */
module CapBench {
  datatype Side = Hat | Grove
  datatype PinFunction = GpioPins | UsbPins

  const K_RESET_COMMAND := 0x07
  const K_TOGGLE_I2C := 0x08
  const K_TOGGLE_UART := 0x09

  function Other(side: Side): Side { if side == Hat then Grove else Hat }

  /** What was tried on the control bus and on the test lines, whatever became of it. */
  datatype Attempt = Write(reg: nat, value: nat) | Read | Release

  class Bench {
    var ext5v: bool
    var grove5v: bool
    var hostMux: Side
    var capI2c: Side
    var capUart: Side
    var pins: PinFunction
    var linesInput: bool
    /** Operations that failed although nothing stood in their way. */
    ghost var faults: nat
    /** Control transactions issued while host and CAP listened on different sides. */
    ghost var unreachable: nat
    /** What was written to the command register, register 1, and took effect. */
    ghost var commands: seq<nat>
    ghost var attempts: seq<Attempt>

    /** A fixture comes up with both channels on HAT; everything on the host side is unknown. */
    constructor (ext5v: bool, grove5v: bool, hostMux: Side, pins: PinFunction, linesInput: bool)
      ensures capI2c == Hat && capUart == Hat && faults == 0 && unreachable == 0 && commands == []
    {
      this.ext5v, this.grove5v, this.hostMux := ext5v, grove5v, hostMux;
      this.pins, this.linesInput, capI2c, capUart := pins, linesInput, Hat, Hat;
      faults, unreachable, commands, attempts := 0, 0, [], [];
    }

    method SetExt5v(on: bool) returns (ok: bool)
      modifies this`ext5v, this`faults
      ensures ok ==> ext5v == on && faults == old(faults)
      ensures !ok ==> faults == old(faults) + 1
    {
      ok := *;
      if ok {
        ext5v := on;
      } else {
        ext5v := *;
        faults := faults + 1;
      }
    }

    method SetGrove5v(on: bool) returns (ok: bool)
      modifies this`grove5v, this`faults
      ensures ok ==> grove5v == on && faults == old(faults)
      ensures !ok ==> faults == old(faults) + 1
    {
      ok := *;
      if ok {
        grove5v := on;
      } else {
        grove5v := *;
        faults := faults + 1;
      }
    }

    /** set_external_bus_i2c_mode(true) selects Grove, set_external_bus_uart_mode selects HAT. */
    method SetHostMux(side: Side) returns (ok: bool)
      modifies this`hostMux, this`faults
      ensures ok ==> hostMux == side && faults == old(faults)
      ensures !ok ==> faults == old(faults) + 1
    {
      ok := *;
      if ok {
        hostMux := side;
      } else {
        hostMux := *;
        faults := faults + 1;
      }
    }

    method SelectPins(pinFunction: PinFunction) returns (ok: bool)
      modifies this`pins, this`faults
      ensures ok ==> pins == pinFunction && faults == old(faults)
      ensures !ok ==> faults == old(faults) + 1
    {
      ok := *;
      if ok {
        pins := pinFunction;
      } else {
        pins := *;
        faults := faults + 1;
      }
    }

    method SetTestOutputs() returns (ok: bool)
      modifies this`linesInput, this`faults
      ensures ok ==> faults == old(faults)
      ensures !ok ==> faults == old(faults) + 1
    {
      ok := *;
      if ok {
        linesInput := false;
      } else {
        linesInput := *;
        faults := faults + 1;
      }
    }

    method SetTestInputs() returns (ok: bool)
      modifies this`linesInput, this`faults, this`attempts
      ensures attempts == old(attempts) + [Release]
      ensures ok ==> linesInput && faults == old(faults)
      ensures !ok ==> faults == old(faults) + 1
    {
      attempts := attempts + [Release];
      ok := *;
      if ok {
        linesInput := true;
      } else {
        linesInput := *;
        faults := faults + 1;
      }
    }

    predicate Reachable()
      reads this`hostMux, this`capI2c
    {
      hostMux == capI2c
    }

    /** Commands 8 and 9 in register 1 are toggles: they move a CAP channel to its other side. */
    method WriteRegister(reg: nat, value: nat) returns (ok: bool)
      modifies this`capI2c, this`capUart, this`faults, this`unreachable, this`commands, this`attempts
      ensures !old(Reachable()) ==> !ok && unreachable == old(unreachable) + 1 && faults == old(faults)
      ensures old(Reachable()) ==> unreachable == old(unreachable) && faults == old(faults) + if ok then 0 else 1
      ensures capI2c == if ok && reg == 1 && value == K_TOGGLE_I2C then Other(old(capI2c)) else old(capI2c)
      ensures capUart == if ok && reg == 1 && value == K_TOGGLE_UART then Other(old(capUart)) else old(capUart)
      ensures commands == old(commands) + if ok && reg == 1 then [value] else []
      ensures attempts == old(attempts) + [Write(reg, value)]
    {
      attempts := attempts + [Write(reg, value)];
      if !Reachable() {
        unreachable := unreachable + 1;
        return false;
      }
      ok := *;
      if ok {
        Deliver(reg, value);
      } else {
        faults := faults + 1;
      }
    }

    /** A write takes effect. */
    method Deliver(reg: nat, value: nat)
      requires Reachable()
      modifies this`capI2c, this`capUart, this`commands
      ensures capI2c == if reg == 1 && value == K_TOGGLE_I2C then Other(old(capI2c)) else old(capI2c)
      ensures capUart == if reg == 1 && value == K_TOGGLE_UART then Other(old(capUart)) else old(capUart)
      ensures commands == old(commands) + if reg == 1 then [value] else []
    {
      commands := commands + if reg == 1 then [value] else [];
      if reg == 1 && value == K_TOGGLE_I2C {
        capI2c := Other(capI2c);
      } else if reg == 1 && value == K_TOGGLE_UART {
        capUart := Other(capUart);
      }
    }

    method ReadRegister() returns (ok: bool, value: nat)
      modifies this`faults, this`unreachable, this`attempts
      ensures attempts == old(attempts) + [Read]
      ensures !Reachable() ==> !ok && unreachable == old(unreachable) + 1 && faults == old(faults)
      ensures Reachable() ==> unreachable == old(unreachable) && faults == old(faults) + if ok then 0 else 1
      ensures value < 256
    {
      value := 0;
      attempts := attempts + [Read];
      if !Reachable() {
        unreachable := unreachable + 1;
        return false, value;
      }
      ok := *;
      if !ok {
        faults := faults + 1;
        return;
      }
      var read: nat := *;
      value := read % 256;
    }
  }
}
