/**
 The CAP fixture sequence: eight tests over a control bus that the test itself moves between two sides,
 and a best-effort cleanup that must put the hardware back from wherever the run stopped.
 */
module CapFixture {
  import opened Common
  import opened UartFrame
  import opened CapBench

  datatype RunState = Idle | Running | Passed | Failed | Canceled
  datatype ItemState = ItemPending | ItemRunning | ItemPassed | ItemFailed

  const K_ITEMS := 8
  const K_POWER_ITEM := 0
  const K_I2C_ITEM := 1
  const K_GROVE_I2C_ITEM := 2
  const K_UART_ITEM := 3
  const K_GROVE_UART_ITEM := 4
  const K_SPI_ITEM := 5
  const K_USB_ITEM := 6
  const K_GPIO_ITEM := 7

  type Payload = bytes: seq<byte> | |bytes| == K_PAYLOAD_SIZE witness [0, 0, 0, 0, 0, 0, 0, 0, 0, 0]

  /** The commands of a run that passes, one test after the other; the two toggles come in pairs. */
  function TestCommands(before: seq<nat>): seq<nat> {
    before + [0x01] + [0x02] + [K_TOGGLE_I2C] + [0x02] + [K_TOGGLE_I2C]
    + [0x03] + [K_TOGGLE_UART] + [0x03] + [K_TOGGLE_UART] + [0x05] + [0x04] + [0x06] + [0x00]
  }

  /** The items when tests 0..k-1 have passed, test k is in this state and the rest wait. */
  function Progress(k: nat, current: ItemState): (items: seq<ItemState>)
    ensures |items| == K_ITEMS
  {
    seq(K_ITEMS, i => if i < k then ItemPassed else if i == k then current else ItemPending)
  }

  /** The two streams of a UART dialogue. */
  datatype Heard = Heard(hello: seq<Arrival>, answer: seq<Arrival>)

  const SILENCE := Heard([], [])

  class CapFixtureTestModel {
    const bench: Bench
    /** What READY carries, and what comes back for 0..9. */
    const zeros: Payload
    const reversed: Payload
    var state: RunState
    var items: seq<ItemState>
    var activeItem: nat
    var cancelRequested: bool
    var hostPinFunctionKnown: bool
    var hostUsbFunctionSelected: bool
    var gpioTestLinesReleased: bool
    var capGroveI2cActive: bool
    var capGroveUartActive: bool
    var uartOpen: bool
    /** Cancellation came between the toggle back to HAT and the clearing of the flag. */
    ghost var i2cRestoreInterrupted: bool
    ghost var uartRestoreInterrupted: bool
    ghost var cleanups: nat
    ghost var cleanupFaults: nat

    constructor (bench: Bench)
      requires bench.capI2c == Hat && bench.capUart == Hat
      ensures this.bench == bench && Consistent() && state == Idle && items == Progress(0, ItemPending)
      ensures activeItem == K_USB_ITEM && cleanups == 0 && !cancelRequested && Quiet()
      ensures zeros == [0, 0, 0, 0, 0, 0, 0, 0, 0, 0] && reversed == [9, 8, 7, 6, 5, 4, 3, 2, 1, 0]
    {
      this.bench := bench;
      zeros, reversed := [0, 0, 0, 0, 0, 0, 0, 0, 0, 0], [9, 8, 7, 6, 5, 4, 3, 2, 1, 0];
      state, items, activeItem, cancelRequested := Idle, Progress(0, ItemPending), K_USB_ITEM, false;
      hostPinFunctionKnown, hostUsbFunctionSelected, gpioTestLinesReleased := false, false, false;
      capGroveI2cActive, capGroveUartActive, uartOpen := false, false, false;
      i2cRestoreInterrupted, uartRestoreInterrupted, cleanups, cleanupFaults := false, false, 0, 0;
    }

    /** The first stream carried exactly READY, the second the sent payload reversed. */
    ghost predicate GoodDialogue(heard: Heard) {
      && CarriesOnly(Bytes(heard.hello), MakeUartFrame(0x31, zeros, 0))
      && CarriesOnly(Bytes(heard.answer), MakeUartFrame(0x03, reversed, 10))
    }

    /** What the flags say about the hardware, wherever the run stops. */
    ghost predicate Consistent()
      reads this, bench
    {
      && |items| == K_ITEMS
      && (hostPinFunctionKnown && !hostUsbFunctionSelected ==> bench.pins == GpioPins)
      && (gpioTestLinesReleased ==> bench.linesInput)
      && (if i2cRestoreInterrupted then capGroveI2cActive && bench.capI2c == Hat
          else capGroveI2cActive <==> bench.capI2c == Grove)
      && (if uartRestoreInterrupted then capGroveUartActive && bench.capUart == Hat
          else capGroveUartActive <==> bench.capUart == Grove)
    }

    /** No restore is half done and no channel is away from HAT. */
    ghost predicate Quiet()
      reads this
    {
      !i2cRestoreInterrupted && !uartRestoreInterrupted && !capGroveI2cActive && !capGroveUartActive
    }

    /** Between tests: everything at HAT and reachable, nothing decided yet. */
    ghost predicate Ready(k: nat)
      reads this, bench
    {
      && Consistent() && Quiet() && bench.hostMux == Hat
      && state == Running && items == Progress(k, ItemPending)
      && !gpioTestLinesReleased && (k <= K_USB_ITEM ==> !hostPinFunctionKnown)
    }

    /** A test in progress, with the given channels. */
    ghost predicate Testing(k: nat, i2c: Side, uart: Side)
      reads this, bench
    {
      && Consistent() && !i2cRestoreInterrupted && !uartRestoreInterrupted
      && state == Running && items == Progress(k, ItemRunning) && activeItem == k
      && bench.capI2c == i2c && bench.capUart == uart
      && !gpioTestLinesReleased && (k < K_USB_ITEM ==> !hostPinFunctionKnown)
    }

    /** A test that ended the run: failed, or left running because cancellation was seen. */
    ghost predicate Stopped(k: nat)
      reads this, bench
    {
      && Consistent()
      && (state == Failed || (state == Running && cancelRequested))
      && items == Progress(k, if state == Failed then ItemFailed else ItemRunning)
    }

    /** Another thread may have requested cancellation by now; a request is never withdrawn. */
    method ObserveCancel() returns (canceled: bool)
      modifies this`cancelRequested
      ensures canceled == cancelRequested && (old(cancelRequested) ==> canceled)
    {
      if * {
        cancelRequested := true;
      }
      return cancelRequested;
    }

    /** It ends early only for a cancellation, but may also miss one. */
    method Delay() returns (ok: bool)
      modifies this`cancelRequested
      ensures (!ok || old(cancelRequested) ==> cancelRequested)
    {
      ok := true;
      var checks: nat := *;
      while checks > 0
        invariant old(cancelRequested) ==> cancelRequested
      {
        var canceled := ObserveCancel();
        if canceled {
          return false;
        }
        checks := checks - 1;
      }
    }

    method Fail()
      requires |items| == K_ITEMS
      modifies this`state, this`items
      ensures state == Failed
      ensures items == if activeItem < K_ITEMS then old(items)[activeItem := ItemFailed] else old(items)
    {
      state := Failed;
      if activeItem < |items| {
        items := items[activeItem := ItemFailed];
      }
    }

    method BeginItem(k: nat)
      requires k < K_ITEMS && Ready(k)
      modifies this`activeItem, this`items
      ensures Testing(k, Hat, Hat) && bench.hostMux == Hat
      ensures k == K_USB_ITEM ==> !hostPinFunctionKnown
    {
      activeItem := k;
      items := items[k := ItemRunning];
      assert items == Progress(k, ItemRunning);
    }

    method PassItem(k: nat)
      requires k < K_ITEMS && items == Progress(k, ItemRunning)
      modifies this`items
      ensures items == Progress(k + 1, ItemPending)
    {
      items := items[k := ItemPassed];
    }

    /** Fails the running test. */
    method FailTest(ghost k: nat)
      requires k < K_ITEMS && Consistent() && items == Progress(k, ItemRunning) && activeItem == k
      modifies this`state, this`items
      ensures Stopped(k) && state == Failed
    {
      Fail();
      assert items == Progress(k, ItemFailed);
    }

    /** One control write. A toggle moves its channel; the caller must then record that. */
    method WriteReg(reg: nat, value: nat, ghost k: nat) returns (ok: bool)
      requires k < K_ITEMS && Testing(k, bench.capI2c, bench.capUart) && bench.Reachable()
      modifies this`cancelRequested, this`state, this`items,
               bench`capI2c, bench`capUart, bench`faults, bench`unreachable, bench`attempts, bench`commands
      ensures bench.unreachable == old(bench.unreachable)
      ensures ok ==> state == Running && items == Progress(k, ItemRunning)
      ensures !ok ==> Stopped(k)
      ensures bench.capI2c == if ok && reg == 1 && value == K_TOGGLE_I2C then Other(old(bench.capI2c)) else old(bench.capI2c)
      ensures bench.capUart == if ok && reg == 1 && value == K_TOGGLE_UART then Other(old(bench.capUart)) else old(bench.capUart)
      ensures ok ==> bench.commands == old(bench.commands) + if reg == 1 then [value] else []
      ensures bench.attempts == old(bench.attempts)
              || bench.attempts == old(bench.attempts) + [Write(reg, value)]
    {
      var canceled := ObserveCancel();
      if canceled {
        return false;
      }
      ok := bench.WriteRegister(reg, value);
      if !ok {
        FailTest(k);
      }
    }

    method ReadReg(ghost k: nat) returns (ok: bool, value: nat)
      requires k < K_ITEMS && Testing(k, bench.capI2c, bench.capUart) && bench.Reachable()
      modifies this`cancelRequested, this`state, this`items, bench`faults, bench`unreachable, bench`attempts
      ensures bench.unreachable == old(bench.unreachable)
      ensures ok ==> state == Running && items == Progress(k, ItemRunning) && value < 256
      ensures !ok ==> Stopped(k)
      ensures bench.attempts == old(bench.attempts) || bench.attempts == old(bench.attempts) + [Read]
    {
      var canceled := ObserveCancel();
      if canceled {
        return false, 0;
      }
      ok, value := bench.ReadRegister();
      if !ok {
        FailTest(k);
      }
    }

    method SelectHostPinFunction(usb: bool) returns (ok: bool)
      requires hostPinFunctionKnown && !hostUsbFunctionSelected ==> bench.pins == GpioPins
      modifies this`hostPinFunctionKnown, this`hostUsbFunctionSelected, bench`pins, bench`faults
      ensures ok ==> hostPinFunctionKnown && hostUsbFunctionSelected == usb && bench.faults == old(bench.faults)
      ensures !ok ==> bench.faults == old(bench.faults) + 1
      ensures ok && !usb ==> bench.pins == GpioPins
      ensures !old(hostPinFunctionKnown) || !usb ==>
                (hostPinFunctionKnown && !hostUsbFunctionSelected ==> bench.pins == GpioPins)
    {
      if hostPinFunctionKnown && hostUsbFunctionSelected == usb {
        return true;
      }
      ok := bench.SelectPins(if usb then UsbPins else GpioPins);
      if ok {
        hostPinFunctionKnown := true;
        hostUsbFunctionSelected := usb;
      }
    }

    // -------------------------------------------------------------- the tests

    method RunPower() returns (ok: bool)
      requires Ready(K_POWER_ITEM)
      modifies this, bench
      ensures if ok then Ready(K_POWER_ITEM + 1) else Stopped(K_POWER_ITEM) && Undisturbed()
      ensures bench.unreachable == old(bench.unreachable) && cleanups == old(cleanups)
      ensures ok ==> bench.commands == old(bench.commands) + [0x01]
    {
      BeginItem(K_POWER_ITEM);
      ok := StartPower();
      if !ok {
        return;
      }
      ok := MeasurePower();
      if !ok {
        return;
      }
      PassItem(K_POWER_ITEM);
    }

    method StartPower() returns (ok: bool)
      requires Testing(K_POWER_ITEM, Hat, Hat) && bench.hostMux == Hat
      modifies this`cancelRequested, this`state, this`items,
               bench`ext5v, bench`capI2c, bench`capUart, bench`faults, bench`unreachable, bench`attempts, bench`commands
      ensures if ok then Testing(K_POWER_ITEM, Hat, Hat) else Stopped(K_POWER_ITEM)
      ensures bench.unreachable == old(bench.unreachable)
      ensures ok ==> bench.commands == old(bench.commands) + [0x01]
    {
      ok := bench.SetExt5v(true);
      if !ok {
        FailTest(K_POWER_ITEM);
        return;
      }
      ok := Delay();
      if !ok {
        return;
      }
      ok := WriteReg(1, 0x01, K_POWER_ITEM);
      if !ok {
        return;
      }
      ok := Delay();
    }

    method MeasurePower() returns (ok: bool)
      requires Testing(K_POWER_ITEM, Hat, Hat) && bench.hostMux == Hat
      modifies this`cancelRequested, this`state, this`items,
               bench`capI2c, bench`capUart, bench`faults, bench`unreachable, bench`attempts, bench`commands
      ensures if ok then Testing(K_POWER_ITEM, Hat, Hat) else Stopped(K_POWER_ITEM)
      ensures bench.unreachable == old(bench.unreachable) && (ok ==> bench.commands == old(bench.commands))
    {
      var report: nat;
      ok, report := *, *;
      if !ok {
        FailTest(K_POWER_ITEM);
        return;
      }
      ok := WriteReg(0x0F, report, K_POWER_ITEM);
      if !ok {
        return;
      }
      ok := Delay();
      if !ok {
        return;
      }
      var low, high;
      ok, low := ReadReg(K_POWER_ITEM);
      if !ok {
        return;
      }
      ok, high := ReadReg(K_POWER_ITEM);
      if !ok {
        return;
      }
      if high + low * 256 <= 4500 {
        FailTest(K_POWER_ITEM);
        return false;
      }
    }

    method RunI2c() returns (ok: bool)
      requires Ready(K_I2C_ITEM)
      modifies this, bench
      ensures if ok then Ready(K_I2C_ITEM + 1) else Stopped(K_I2C_ITEM) && Undisturbed()
      ensures bench.unreachable == old(bench.unreachable) && cleanups == old(cleanups)
      ensures ok ==> bench.commands == old(bench.commands) + [0x02]
    {
      BeginItem(K_I2C_ITEM);
      ok := CheckScratchRegister();
      if !ok {
        return;
      }
      ok := WriteReg(1, 0x02, K_I2C_ITEM);
      if !ok {
        return;
      }
      ok := Delay();
      if !ok {
        return;
      }
      var value;
      ok, value := ReadReg(K_I2C_ITEM);
      if !ok || value != 0x02 {
        FailTestAgain(K_I2C_ITEM);
        return false;
      }
      PassItem(K_I2C_ITEM);
      return true;
    }

    method CheckScratchRegister() returns (ok: bool)
      requires Testing(K_I2C_ITEM, Hat, Hat) && bench.hostMux == Hat
      modifies this`cancelRequested, this`state, this`items,
               bench`capI2c, bench`capUart, bench`faults, bench`unreachable, bench`attempts, bench`commands
      ensures if ok then Testing(K_I2C_ITEM, Hat, Hat) else Stopped(K_I2C_ITEM)
      ensures bench.unreachable == old(bench.unreachable) && (ok ==> bench.commands == old(bench.commands))
    {
      var value;
      ok, value := ReadReg(K_I2C_ITEM);
      if !ok {
        return;
      }
      ok := WriteReg(2, 0xA55A, K_I2C_ITEM);
      if !ok {
        return;
      }
      ok := Delay();
      if !ok {
        return;
      }
      ok, value := ReadReg(K_I2C_ITEM);
      if !ok {
        return;
      }
      var matches: bool := *;
      if !matches {
        FailTest(K_I2C_ITEM);
        return false;
      }
      ok := WriteReg(2, 0x0FF0, K_I2C_ITEM);
    }

    /** fail_ after an operation that may already have failed or been canceled. */
    method FailTestAgain(ghost k: nat)
      requires k < K_ITEMS && Consistent() && activeItem == k
      requires items == Progress(k, ItemRunning) || items == Progress(k, ItemFailed)
      modifies this`state, this`items
      ensures Stopped(k) && state == Failed
    {
      Fail();
      assert items == Progress(k, ItemFailed);
    }

    /** No channel restore was left half done. */
    ghost predicate Undisturbed()
      reads this
    {
      !i2cRestoreInterrupted && !uartRestoreInterrupted
    }

    /**
     Moves the CAP's I2C channel to Grove and back. Every control transaction is issued while host and
     CAP are on the same side, although the two move one after the other.
     */
    method RunGroveI2c() returns (ok: bool)
      requires Ready(K_GROVE_I2C_ITEM)
      modifies this, bench
      ensures if ok then Ready(K_GROVE_I2C_ITEM + 1) else Stopped(K_GROVE_I2C_ITEM)
      ensures !uartRestoreInterrupted && (i2cRestoreInterrupted ==> cancelRequested)
      ensures bench.unreachable == old(bench.unreachable) && cleanups == old(cleanups)
      ensures ok ==> bench.commands == old(bench.commands) + [K_TOGGLE_I2C] + [0x02] + [K_TOGGLE_I2C]
    {
      BeginItem(K_GROVE_I2C_ITEM);
      ok := EnterGroveI2c();
      if !ok {
        return;
      }
      ok := CommandOverGrove();
      if !ok {
        return;
      }
      ok := LeaveGroveI2c();
      if !ok {
        return;
      }
      ok := AwaitIdle(K_GROVE_I2C_ITEM);
      if !ok {
        return;
      }
      PassItem(K_GROVE_I2C_ITEM);
      return true;
    }

    method EnterGroveI2c() returns (ok: bool)
      requires Testing(K_GROVE_I2C_ITEM, Hat, Hat) && bench.hostMux == Hat && Quiet()
      modifies this`cancelRequested, this`state, this`items, this`capGroveI2cActive,
               bench`grove5v, bench`hostMux, bench`capI2c, bench`capUart, bench`faults, bench`unreachable,
               bench`attempts, bench`commands
      ensures if ok then Testing(K_GROVE_I2C_ITEM, Grove, Hat) && bench.hostMux == Grove && !capGroveUartActive
              else Stopped(K_GROVE_I2C_ITEM)
      ensures bench.unreachable == old(bench.unreachable)
      ensures ok ==> bench.commands == old(bench.commands) + [K_TOGGLE_I2C]
    {
      ok := bench.SetGrove5v(true);
      if ok {
        ok := Delay();
      }
      if !ok {
        FailTest(K_GROVE_I2C_ITEM);
        return;
      }
      ok := WriteReg(1, K_TOGGLE_I2C, K_GROVE_I2C_ITEM);
      if !ok {
        return;
      }
      capGroveI2cActive := true;
      ok := Delay();
      if !ok {
        return;
      }
      ok := bench.SetHostMux(Grove);
      if !ok {
        FailTest(K_GROVE_I2C_ITEM);
        return;
      }
      ok := Delay();
    }

    method LeaveGroveI2c() returns (ok: bool)
      requires Testing(K_GROVE_I2C_ITEM, Grove, Hat) && bench.hostMux == Grove
      modifies this`cancelRequested, this`state, this`items, this`capGroveI2cActive, this`i2cRestoreInterrupted,
               bench`hostMux, bench`capI2c, bench`capUart, bench`faults, bench`unreachable, bench`attempts,
               bench`commands
      ensures if ok then Testing(K_GROVE_I2C_ITEM, Hat, Hat) && bench.hostMux == Hat
              else Stopped(K_GROVE_I2C_ITEM)
      ensures i2cRestoreInterrupted ==> cancelRequested
      ensures bench.unreachable == old(bench.unreachable)
      ensures ok ==> bench.commands == old(bench.commands) + [K_TOGGLE_I2C]
    {
      ok := WriteReg(1, K_TOGGLE_I2C, K_GROVE_I2C_ITEM);
      if !ok {
        return;
      }
      ok := Delay();
      if ok {
        ok := Delay();
      }
      if !ok {
        i2cRestoreInterrupted := true;
        return;
      }
      capGroveI2cActive := false;
      ok := bench.SetHostMux(Hat);
      if ok {
        ok := Delay();
      }
      if !ok {
        FailTest(K_GROVE_I2C_ITEM);
      }
    }

    method CommandOverGrove() returns (ok: bool)
      requires Testing(K_GROVE_I2C_ITEM, Grove, Hat) && bench.hostMux == Grove
      modifies this`cancelRequested, this`state, this`items,
               bench`capI2c, bench`capUart, bench`faults, bench`unreachable, bench`attempts, bench`commands
      ensures if ok then Testing(K_GROVE_I2C_ITEM, Grove, Hat) else Stopped(K_GROVE_I2C_ITEM)
      ensures bench.unreachable == old(bench.unreachable)
      ensures ok ==> bench.commands == old(bench.commands) + [0x02]
    {
      ok := WriteReg(1, 0x02, K_GROVE_I2C_ITEM);
      if !ok {
        return;
      }
      ok := Delay();
      if !ok {
        return;
      }
      var status;
      ok, status := ReadReg(K_GROVE_I2C_ITEM);
      if !ok || status != 0x02 {
        FailTestAgain(K_GROVE_I2C_ITEM);
        return false;
      }
    }

    /** Polls the status register until it reads IDLE or time runs out. */
    method AwaitIdle(k: nat) returns (ok: bool)
      requires k < K_ITEMS && Testing(k, bench.capI2c, bench.capUart) && bench.Reachable()
      modifies this`cancelRequested, this`state, this`items, bench`faults, bench`unreachable, bench`attempts
      ensures if ok then Testing(k, bench.capI2c, bench.capUart) else Stopped(k)
      ensures bench.unreachable == old(bench.unreachable)
    {
      var status := 0xFF;
      var timeLeft: nat := *;
      while timeLeft > 0
        invariant Testing(k, bench.capI2c, bench.capUart)
        invariant bench.unreachable == old(bench.unreachable)
      {
        ok, status := ReadReg(k);
        if !ok {
          return;
        }
        if status == 0x00 {
          break;
        }
        ok := Delay();
        if !ok {
          return;
        }
        timeLeft := timeLeft - 1;
      }
      if status != 0x00 {
        FailTest(k);
        return false;
      }
      return true;
    }

    /** Opens the host UART afresh and starts the CAP's UART command. */
    method PrepareUartTest(k: nat) returns (ok: bool)
      requires k < K_ITEMS && Testing(k, bench.capI2c, bench.capUart) && bench.Reachable()
      modifies this`uartOpen, this`cancelRequested, this`state, this`items,
               bench`capI2c, bench`capUart, bench`faults, bench`unreachable, bench`attempts, bench`commands
      ensures if ok then Testing(k, bench.capI2c, bench.capUart) && uartOpen else Stopped(k)
      ensures bench.unreachable == old(bench.unreachable)
      ensures bench.capI2c == old(bench.capI2c) && bench.capUart == old(bench.capUart)
      ensures ok ==> bench.commands == old(bench.commands) + [0x03]
    {
      uartOpen := false;
      uartOpen := *;
      if !uartOpen {
        FailTest(k);
        return false;
      }
      var cleared: bool := *;
      if !cleared {
        FailTest(k);
        return false;
      }
      ok := WriteReg(1, 0x03, k);
      if !ok {
        return;
      }
      ok := AwaitUartCommand(k);
    }

    /** Polls until the CAP reports the UART command as running, then clears the input again. */
    method AwaitUartCommand(k: nat) returns (ok: bool)
      requires k < K_ITEMS && Testing(k, bench.capI2c, bench.capUart) && bench.Reachable()
      modifies this`cancelRequested, this`state, this`items, bench`faults, bench`unreachable, bench`attempts
      ensures if ok then Testing(k, bench.capI2c, bench.capUart) else Stopped(k)
      ensures bench.unreachable == old(bench.unreachable)
    {
      var timeLeft: nat := *;
      while timeLeft > 0
        invariant Testing(k, bench.capI2c, bench.capUart)
        invariant bench.unreachable == old(bench.unreachable)
      {
        var command, status;
        ok, command := ReadReg(k);
        if !ok {
          return;
        }
        ok, status := ReadReg(k);
        if !ok {
          return;
        }
        if command == 0x03 && status == 0x01 {
          var cleared: bool := *;
          if !cleared {
            FailTest(k);
            return false;
          }
          return true;
        }
        ok := Delay();
        if !ok {
          return;
        }
        timeLeft := timeLeft - 1;
      }
      FailTest(k);
      return false;
    }

    /** One write and one receive on the host UART, as the environment lets them go. */
    method Exchange() returns (written: bool, outcome: ReadOutcome, ghost heard: seq<Arrival>)
      modifies this`cancelRequested
      ensures outcome.FrameRead? ==> written && CarriesOnly(Bytes(heard), outcome.frame)
      ensures old(cancelRequested) ==> cancelRequested
    {
      heard := [];
      written := *;
      if !written {
        return written, TimedOut, heard;
      }
      var arrivals: seq<Arrival> := *;
      heard := arrivals;
      var used;
      outcome, used := ReadUartFrame(arrivals);
      if outcome.ReadCanceled? {
        cancelRequested := true;
      }
    }

    /** HELLO until READY, then START and DATA, then the reply. */
    method UartDialogue(k: nat, helloWriteMustSucceed: bool) returns (ok: bool, ghost heard: Heard)
      requires k < K_ITEMS && Testing(k, bench.capI2c, bench.capUart) && uartOpen
      modifies this`cancelRequested, this`state, this`items
      ensures if ok then Testing(k, bench.capI2c, bench.capUart) else Stopped(k) && state == Failed
      ensures ok ==> GoodDialogue(heard)
    {
      heard := SILENCE;
      ghost var hello: seq<Arrival>, answer: seq<Arrival> := [], [];
      var ready := false;
      var attempt := 1;
      while attempt <= 3
        invariant Testing(k, bench.capI2c, bench.capUart) && !ready
      {
        var canceled := ObserveCancel();
        if canceled {
          break;
        }
        var written, outcome;
        written, outcome, hello := Exchange();
        if !written && helloWriteMustSucceed {
          FailTest(k);
          return false, heard;
        }
        if outcome.FrameRead? {
          FrameSize(Bytes(hello), outcome.frame);
          var error := ValidateUartFrame(outcome.frame, 0x31, 0, zeros);
          if error.Some? {
            FailTest(k);
            return false, heard;
          }
          ready := true;
          break;
        }
        attempt := attempt + 1;
      }
      if !ready {
        FailTest(k);
        return false, heard;
      }
      var started: bool := *;
      if !started {
        FailTest(k);
        return false, heard;
      }
      var written, outcome;
      written, outcome, answer := Exchange();
      if !outcome.FrameRead? {
        FailTest(k);
        return false, heard;
      }
      FrameSize(Bytes(answer), outcome.frame);
      var error := ValidateUartFrame(outcome.frame, 0x03, 10, reversed);
      if error.Some? {
        FailTest(k);
        return false, heard;
      }
      return true, Heard(hello, answer);
    }

    /** The CAP's UART command and the dialogue that belongs to it. */
    method TestUart(k: nat, helloWriteMustSucceed: bool) returns (ok: bool, ghost heard: Heard)
      requires k < K_ITEMS && Testing(k, bench.capI2c, bench.capUart) && bench.Reachable()
      modifies this`uartOpen, this`cancelRequested, this`state, this`items,
               bench`capI2c, bench`capUart, bench`faults, bench`unreachable, bench`attempts, bench`commands
      ensures if ok then Testing(k, bench.capI2c, bench.capUart) && GoodDialogue(heard) else Stopped(k)
      ensures bench.unreachable == old(bench.unreachable)
      ensures bench.capI2c == old(bench.capI2c) && bench.capUart == old(bench.capUart)
      ensures ok ==> bench.commands == old(bench.commands) + [0x03]
    {
      heard := SILENCE;
      ok := PrepareUartTest(k);
      if ok {
        ok, heard := UartDialogue(k, helloWriteMustSucceed);
      }
    }

    method RunUart() returns (ok: bool, ghost heard: Heard)
      requires Ready(K_UART_ITEM)
      modifies this, bench
      ensures if ok then Ready(K_UART_ITEM + 1) else Stopped(K_UART_ITEM) && Undisturbed()
      ensures ok ==> GoodDialogue(heard)
      ensures bench.unreachable == old(bench.unreachable) && cleanups == old(cleanups)
      ensures ok ==> bench.commands == old(bench.commands) + [0x03]
    {
      BeginItem(K_UART_ITEM);
      ok, heard := TestUart(K_UART_ITEM, true);
      if !ok {
        return;
      }
      ok := SettleAndReadTwice(K_UART_ITEM);
      if !ok {
        return;
      }
      PassItem(K_UART_ITEM);
    }

    /** The CAP's own record of what it received and replied; read, but not compared. */
    method SettleAndReadTwice(k: nat) returns (ok: bool)
      requires k < K_ITEMS && Testing(k, bench.capI2c, bench.capUart) && bench.Reachable()
      modifies this`cancelRequested, this`state, this`items, bench`faults, bench`unreachable, bench`attempts
      ensures if ok then Testing(k, bench.capI2c, bench.capUart) else Stopped(k)
      ensures bench.unreachable == old(bench.unreachable)
    {
      ok := Delay();
      if !ok {
        return;
      }
      var value;
      ok, value := ReadReg(k);
      if !ok {
        return;
      }
      ok, value := ReadReg(k);
    }

    /** The same dialogue with the CAP's UART moved to Grove and back. */
    method RunGroveUart() returns (ok: bool, ghost heard: Heard)
      requires Ready(K_GROVE_UART_ITEM)
      modifies this, bench
      ensures if ok then Ready(K_GROVE_UART_ITEM + 1) else Stopped(K_GROVE_UART_ITEM)
      ensures ok ==> GoodDialogue(heard)
      ensures !i2cRestoreInterrupted && (uartRestoreInterrupted ==> cancelRequested)
      ensures bench.unreachable == old(bench.unreachable) && cleanups == old(cleanups)
      ensures ok ==> bench.commands == old(bench.commands) + [K_TOGGLE_UART] + [0x03] + [K_TOGGLE_UART]
    {
      heard := SILENCE;
      BeginItem(K_GROVE_UART_ITEM);
      ok := EnterGroveUart();
      if !ok {
        return;
      }
      ok, heard := TestUart(K_GROVE_UART_ITEM, false);
      if !ok {
        return;
      }
      ok := LeaveGroveUart();
      if !ok {
        return;
      }
      PassItem(K_GROVE_UART_ITEM);
    }

    method EnterGroveUart() returns (ok: bool)
      requires Testing(K_GROVE_UART_ITEM, Hat, Hat) && Quiet()
      modifies this`cancelRequested, this`state, this`items, this`capGroveUartActive,
               bench`hostMux, bench`capI2c, bench`capUart, bench`faults, bench`unreachable, bench`attempts,
               bench`commands
      ensures if ok then Testing(K_GROVE_UART_ITEM, Hat, Grove) && bench.hostMux == Hat
              else Stopped(K_GROVE_UART_ITEM)
      ensures bench.unreachable == old(bench.unreachable)
      ensures ok ==> bench.commands == old(bench.commands) + [K_TOGGLE_UART]
    {
      ok := bench.SetHostMux(Hat);
      if !ok {
        FailTest(K_GROVE_UART_ITEM);
        return;
      }
      ok := Delay();
      if !ok {
        return;
      }
      ok := WriteReg(1, K_TOGGLE_UART, K_GROVE_UART_ITEM);
      if !ok {
        return;
      }
      capGroveUartActive := true;
      ok := Delay();
      if !ok {
        return;
      }
      ok := AwaitIdle(K_GROVE_UART_ITEM);
      if !ok {
        return;
      }
      ok := Delay();
    }

    method LeaveGroveUart() returns (ok: bool)
      requires Testing(K_GROVE_UART_ITEM, Hat, Grove) && bench.hostMux == Hat
      modifies this`cancelRequested, this`state, this`items, this`capGroveUartActive, this`uartRestoreInterrupted,
               bench`capI2c, bench`capUart, bench`faults, bench`unreachable, bench`attempts, bench`commands
      ensures if ok then Testing(K_GROVE_UART_ITEM, Hat, Hat) else Stopped(K_GROVE_UART_ITEM)
      ensures uartRestoreInterrupted ==> cancelRequested
      ensures bench.unreachable == old(bench.unreachable)
      ensures ok ==> bench.commands == old(bench.commands) + [K_TOGGLE_UART]
    {
      ok := WriteReg(1, K_TOGGLE_UART, K_GROVE_UART_ITEM);
      if !ok {
        return;
      }
      ok := Delay();
      if ok {
        ok := Delay();
      }
      if !ok {
        uartRestoreInterrupted := true;
        return;
      }
      capGroveUartActive := false;
    }

    method RunSpi() returns (ok: bool)
      requires Ready(K_SPI_ITEM)
      modifies this, bench
      ensures if ok then Ready(K_SPI_ITEM + 1) else Stopped(K_SPI_ITEM) && Undisturbed()
      ensures bench.unreachable == old(bench.unreachable) && cleanups == old(cleanups)
      ensures ok ==> bench.commands == old(bench.commands) + [0x05]
    {
      BeginItem(K_SPI_ITEM);
      ok := WriteReg(1, 0x05, K_SPI_ITEM);
      if !ok {
        return;
      }
      ok := Delay();
      if !ok {
        return;
      }
      var transferred: bool, matches: bool := *, *;
      if !transferred || !matches {
        FailTest(K_SPI_ITEM);
        return false;
      }
      ok := SettleAndReadTwice(K_SPI_ITEM);
      if !ok {
        return;
      }
      PassItem(K_SPI_ITEM);
    }

    /** A wait of the USB service: it succeeds, fails, or ends because cancellation was seen. */
    method UsbWait() returns (ok: bool)
      modifies this`cancelRequested
      ensures old(cancelRequested) ==> cancelRequested
    {
      var canceled := ObserveCancel();
      ok := *;
    }

    method EnumerateUsb() returns (ok: bool)
      requires Testing(K_USB_ITEM, Hat, Hat)
      modifies this`cancelRequested, this`state, this`items
      ensures if ok then Testing(K_USB_ITEM, Hat, Hat) else Stopped(K_USB_ITEM)
    {
      ok := UsbWait();
      if ok {
        return;
      }
      if cancelRequested {
        FailTest(K_USB_ITEM);
        return;
      }
      var reset: bool := *;
      if !reset {
        FailTest(K_USB_ITEM);
        return;
      }
      ok := Delay();
      if !ok {
        return;
      }
      ok := UsbWait();
      if !ok {
        FailTest(K_USB_ITEM);
      }
    }

    method StartUsb() returns (ok: bool)
      requires Testing(K_USB_ITEM, Hat, Hat) && bench.hostMux == Hat && !hostPinFunctionKnown
      modifies this`hostPinFunctionKnown, this`hostUsbFunctionSelected, this`cancelRequested, this`state, this`items,
               bench`pins, bench`capI2c, bench`capUart, bench`faults, bench`unreachable, bench`attempts, bench`commands
      ensures if ok then Testing(K_USB_ITEM, Hat, Hat) else Stopped(K_USB_ITEM)
      ensures bench.unreachable == old(bench.unreachable)
      ensures ok ==> bench.commands == old(bench.commands) + [0x04]
    {
      ok := SelectHostPinFunction(true);
      if !ok {
        FailTest(K_USB_ITEM);
        return;
      }
      ok := Delay();
      if !ok {
        return;
      }
      ok := WriteReg(0x10, 0x01, K_USB_ITEM);
      if !ok {
        return;
      }
      ok := WriteReg(1, 0x04, K_USB_ITEM);
      if !ok {
        return;
      }
      ok := Delay();
    }

    method FinishUsb() returns (ok: bool)
      requires Testing(K_USB_ITEM, Hat, Hat) && bench.hostMux == Hat
      modifies this`cancelRequested, this`state, this`items,
               bench`capI2c, bench`capUart, bench`faults, bench`unreachable, bench`attempts, bench`commands
      ensures if ok then Testing(K_USB_ITEM, Hat, Hat) else Stopped(K_USB_ITEM)
      ensures bench.unreachable == old(bench.unreachable)
      ensures ok ==> bench.commands == old(bench.commands)
    {
      var listening := bench.WriteRegister(0x10, 0x03);
      ok := UsbWait();
      if !listening || !ok {
        FailTest(K_USB_ITEM);
        return false;
      }
      ok := WriteReg(0x10, 0x07, K_USB_ITEM);
      if !ok {
        return;
      }
      ok := Delay();
      if !ok {
        return;
      }
      ok := UsbWait();
      if !ok {
        FailTest(K_USB_ITEM);
        return;
      }
      ok := WriteReg(0x10, 0x0F, K_USB_ITEM);
      if !ok {
        return;
      }
      ok := Delay();
    }

    method RunUsb() returns (ok: bool)
      requires Ready(K_USB_ITEM)
      modifies this, bench
      ensures if ok then Ready(K_USB_ITEM + 1) else Stopped(K_USB_ITEM) && Undisturbed()
      ensures bench.unreachable == old(bench.unreachable) && cleanups == old(cleanups)
      ensures ok ==> bench.commands == old(bench.commands) + [0x04]
    {
      BeginItem(K_USB_ITEM);
      ok := StartUsb();
      if !ok {
        return;
      }
      ok := EnumerateUsb();
      if !ok {
        return;
      }
      ok := FinishUsb();
      if !ok {
        return;
      }
      PassItem(K_USB_ITEM);
    }

    method HoldGpioOutputsHigh() returns (ok: bool)
      requires Testing(K_GPIO_ITEM, Hat, Hat)
      modifies this`cancelRequested, this`state, this`items, bench`linesInput, bench`faults
      ensures if ok then Testing(K_GPIO_ITEM, Hat, Hat) else Stopped(K_GPIO_ITEM)
      ensures !ok ==> !gpioTestLinesReleased
    {
      var refreshes: nat := *;
      while refreshes > 0
        invariant Testing(K_GPIO_ITEM, Hat, Hat)
      {
        var canceled := ObserveCancel();
        if canceled {
          return false;
        }
        ok := bench.SetTestOutputs();
        if !ok {
          FailTest(K_GPIO_ITEM);
          return;
        }
        refreshes := refreshes - 1;
      }
      ok := bench.SetTestOutputs();
      if !ok {
        FailTest(K_GPIO_ITEM);
      }
    }

    method SampleGpio() returns (ok: bool, levels: nat)
      requires Testing(K_GPIO_ITEM, Hat, Hat) && bench.hostMux == Hat
      modifies this`cancelRequested, this`state, this`items, bench`linesInput, bench`faults, bench`unreachable,
               bench`attempts
      ensures if ok then Testing(K_GPIO_ITEM, Hat, Hat) else Stopped(K_GPIO_ITEM)
      ensures bench.unreachable == old(bench.unreachable) && |bench.attempts| >= |old(bench.attempts)|
    {
      levels := 0;
      for i := 0 to 5
        invariant Testing(K_GPIO_ITEM, Hat, Hat) && bench.hostMux == Hat
        invariant bench.unreachable == old(bench.unreachable) && |bench.attempts| >= |old(bench.attempts)|
      {
        ok := bench.SetTestOutputs();
        if !ok {
          FailTest(K_GPIO_ITEM);
          return;
        }
        ok, levels := ReadReg(K_GPIO_ITEM);
        if !ok {
          return;
        }
        if i + 1 < 5 {
          ok := HoldGpioOutputsHigh();
          if !ok {
            return;
          }
        }
      }
      ok := true;
    }

    method SelectAndDriveGpio() returns (ok: bool)
      requires Testing(K_GPIO_ITEM, Hat, Hat)
      modifies this`hostPinFunctionKnown, this`hostUsbFunctionSelected, this`cancelRequested, this`state, this`items,
               bench`pins, bench`linesInput, bench`faults
      ensures if ok then Testing(K_GPIO_ITEM, Hat, Hat) else Stopped(K_GPIO_ITEM)
    {
      ok := SelectHostPinFunction(false);
      if !ok {
        FailTest(K_GPIO_ITEM);
        return;
      }
      ok := Delay();
      if !ok {
        return;
      }
      ok := bench.SetTestOutputs();
      if !ok {
        FailTest(K_GPIO_ITEM);
        return;
      }
      ok := HoldGpioOutputsHigh();
    }

    /** Drives the lines, starts the CAP's sampling and reads the lines back on the host. */
    method DriveGpio() returns (ok: bool)
      requires Testing(K_GPIO_ITEM, Hat, Hat) && bench.hostMux == Hat
      modifies this`hostPinFunctionKnown, this`hostUsbFunctionSelected, this`cancelRequested, this`state, this`items,
               bench`pins, bench`linesInput, bench`capI2c, bench`capUart, bench`faults, bench`unreachable,
               bench`attempts, bench`commands
      ensures if ok then Testing(K_GPIO_ITEM, Hat, Hat) else Stopped(K_GPIO_ITEM)
      ensures bench.unreachable == old(bench.unreachable)
      ensures ok ==> bench.commands == old(bench.commands) + [0x06]
      ensures bench.attempts == old(bench.attempts) || bench.attempts == old(bench.attempts) + [Write(1, 0x06)]
    {
      ok := SelectAndDriveGpio();
      if !ok {
        return;
      }
      ok := WriteReg(1, 0x06, K_GPIO_ITEM);
      if !ok {
        return;
      }
      ok := HoldGpioOutputsHigh();
      if !ok {
        return;
      }
      var readback: bool, high: bool := *, *;
      if !readback || !high {
        FailTest(K_GPIO_ITEM);
        return false;
      }
    }

    /** Something was read from the CAP since. */
    twostate predicate Sampled()
      reads bench
    {
      exists i :: |old(bench.attempts)| <= i < |bench.attempts| && bench.attempts[i].Read?
    }

    /** Once sampling was attempted, stopping the CAP and releasing the lines is tried, whatever it gave. */
    method RunGpio() returns (ok: bool)
      requires Ready(K_GPIO_ITEM)
      modifies this, bench
      ensures if ok then Consistent() && state == Running && items == Progress(K_ITEMS, ItemPending)
              else Stopped(K_GPIO_ITEM)
      ensures Undisturbed() && (gpioTestLinesReleased ==> bench.linesInput)
      ensures bench.unreachable == old(bench.unreachable) && cleanups == old(cleanups)
      ensures ok ==> bench.commands == old(bench.commands) + [0x06] + [0x00] && bench.linesInput
      ensures Sampled() ==>
                && |bench.attempts| >= 2 && bench.attempts[|bench.attempts| - 2] == Write(1, 0x00)
                && bench.attempts[|bench.attempts| - 1] == Release
    {
      BeginItem(K_GPIO_ITEM);
      ok := DriveGpio();
      if !ok {
        return;
      }
      var levels;
      ok, levels := SampleGpio();
      ok := StopGpio(ok, levels);
    }

    method StopGpio(sampled: bool, levels: nat) returns (ok: bool)
      requires if sampled then Testing(K_GPIO_ITEM, Hat, Hat) else Stopped(K_GPIO_ITEM)
      requires bench.hostMux == bench.capI2c == Hat
      modifies this`state, this`items, this`gpioTestLinesReleased, bench`linesInput,
               bench`capI2c, bench`capUart, bench`faults, bench`unreachable, bench`attempts, bench`commands
      ensures if ok then Consistent() && state == Running && items == Progress(K_ITEMS, ItemPending)
              else Stopped(K_GPIO_ITEM)
      ensures bench.unreachable == old(bench.unreachable)
      ensures ok ==> sampled && bench.commands == old(bench.commands) + [0x00] && bench.linesInput
      ensures bench.attempts == old(bench.attempts) + [Write(1, 0x00)] + [Release]
    {
      var stopOk := bench.WriteRegister(1, 0x00);
      var inputOk := bench.SetTestInputs();
      gpioTestLinesReleased := inputOk;
      if !sampled {
        return false;
      }
      if levels != 0x07 || !stopOk || !inputOk {
        FailTest(K_GPIO_ITEM);
        return false;
      }
      PassItem(K_GPIO_ITEM);
      ok := true;
    }

    // -------------------------------------------------------------- cleanup and the whole run

    /** Everything the cleanup is for. */
    predicate Restored()
      reads bench
    {
      && !bench.ext5v && !bench.grove5v && bench.hostMux == Hat
      && bench.pins == GpioPins && bench.linesInput && bench.capI2c == Hat
    }

    /**
     Best effort from any point of the run. If nothing fails that could succeed, everything is back,
     except that a CAP UART whose restore was interrupted is toggled away again. The same interruption
     on the I2C channel is harmless: the second toggle is sent where the CAP cannot hear it.
     */
    method Cleanup()
      requires Consistent()
      modifies this, bench
      ensures cleanups == old(cleanups) + 1 && state == old(state) && items == old(items)
      ensures cleanupFaults == bench.faults - old(bench.faults)
      ensures cleanupFaults == 0 ==> Restored()
      ensures cleanupFaults == 0 ==> bench.capUart == if old(uartRestoreInterrupted) then Grove else Hat
      ensures cleanupFaults == 0 ==>
                bench.unreachable == old(bench.unreachable) + if old(i2cRestoreInterrupted) then 1 else 0
      ensures !capGroveI2cActive && !capGroveUartActive && !uartOpen
      ensures i2cRestoreInterrupted == old(i2cRestoreInterrupted)
      ensures uartRestoreInterrupted == old(uartRestoreInterrupted)
      ensures old(cancelRequested) ==> cancelRequested
    {
      cleanups := cleanups + 1;
      ghost var before := bench.faults;
      RestoreChannels();
      StopAndRelease();
      uartOpen := false;
      cleanupFaults := bench.faults - before;
    }

    method RestoreChannels()
      requires Consistent()
      modifies this`cancelRequested, this`capGroveI2cActive, this`capGroveUartActive,
               bench`hostMux, bench`capI2c, bench`capUart, bench`faults, bench`unreachable, bench`attempts,
               bench`commands
      ensures !capGroveI2cActive && !capGroveUartActive
      ensures bench.faults >= old(bench.faults) && (old(cancelRequested) ==> cancelRequested)
      ensures bench.faults == old(bench.faults) ==>
                && bench.hostMux == Hat && bench.capI2c == Hat
                && bench.capUart == (if uartRestoreInterrupted then Grove else Hat)
                && bench.unreachable == old(bench.unreachable) + if i2cRestoreInterrupted then 1 else 0
    {
      RecoverI2c();
      var muxed := bench.SetHostMux(Hat);
      RecoverUart();
    }

    method StopAndRelease()
      requires hostPinFunctionKnown && !hostUsbFunctionSelected ==> bench.pins == GpioPins
      requires gpioTestLinesReleased ==> bench.linesInput
      modifies this`hostPinFunctionKnown, this`hostUsbFunctionSelected, this`gpioTestLinesReleased, bench
      ensures bench.hostMux == old(bench.hostMux)
      ensures bench.capI2c == old(bench.capI2c) && bench.capUart == old(bench.capUart)
      ensures bench.faults >= old(bench.faults)
      ensures bench.faults == old(bench.faults) ==>
                && bench.pins == GpioPins && bench.linesInput && !bench.ext5v && !bench.grove5v
                && (old(bench.Reachable()) ==> bench.unreachable == old(bench.unreachable))
    {
      var stopped := bench.WriteRegister(1, 0x00);
      RestorePins();
      var extOff := bench.SetExt5v(false);
      var groveOff := bench.SetGrove5v(false);
    }

    /** A live Grove I2C channel is reached through the Grove bus and toggled back, once. */
    method RecoverI2c()
      requires Consistent()
      modifies this`cancelRequested, this`capGroveI2cActive,
               bench`hostMux, bench`capI2c, bench`capUart, bench`faults, bench`unreachable, bench`attempts,
               bench`commands
      ensures !capGroveI2cActive && bench.capUart == old(bench.capUart)
      ensures bench.faults >= old(bench.faults) && (old(cancelRequested) ==> cancelRequested)
      ensures bench.faults == old(bench.faults) ==>
                && bench.capI2c == Hat
                && bench.unreachable == old(bench.unreachable) + if i2cRestoreInterrupted then 1 else 0
    {
      if capGroveI2cActive {
        var selected := bench.SetHostMux(Grove);
        if selected {
          var _ := Delay();
        }
      }
      if capGroveI2cActive {
        var toggled := bench.WriteRegister(1, K_TOGGLE_I2C);
        if toggled {
          var _ := Delay();
          var _ := Delay();
        }
        capGroveI2cActive := false;
      }
    }

    method RecoverUart()
      modifies this`cancelRequested, this`capGroveUartActive,
               bench`capI2c, bench`capUart, bench`faults, bench`unreachable, bench`attempts, bench`commands
      ensures !capGroveUartActive && bench.capI2c == old(bench.capI2c)
      ensures bench.faults >= old(bench.faults) && (old(cancelRequested) ==> cancelRequested)
      ensures bench.faults == old(bench.faults) && old(bench.Reachable()) ==>
                && bench.unreachable == old(bench.unreachable)
                && bench.capUart == if old(capGroveUartActive) then Other(old(bench.capUart)) else old(bench.capUart)
    {
      if capGroveUartActive {
        var toggled := bench.WriteRegister(1, K_TOGGLE_UART);
        if toggled {
          var _ := Delay();
          var _ := Delay();
        }
        capGroveUartActive := false;
      }
    }

    method RestorePins()
      requires hostPinFunctionKnown && !hostUsbFunctionSelected ==> bench.pins == GpioPins
      requires gpioTestLinesReleased ==> bench.linesInput
      modifies this`hostPinFunctionKnown, this`hostUsbFunctionSelected, this`gpioTestLinesReleased,
               bench`pins, bench`linesInput, bench`faults, bench`attempts
      ensures bench.faults >= old(bench.faults)
      ensures bench.faults == old(bench.faults) ==> bench.pins == GpioPins && bench.linesInput
    {
      var selected := SelectHostPinFunction(false);
      if !gpioTestLinesReleased {
        var released := bench.SetTestInputs();
        if released {
          gpioTestLinesReleased := true;
        }
      }
    }

    // -------------------------------------------------------------- the whole run

    /** The sequence ended before test `reached` passed: failed in it, or canceled in it or before it. */
    ghost predicate Halted(reached: nat)
      reads this, bench
    {
      && Consistent() && reached < K_ITEMS
      && (state == Failed || (state == Running && cancelRequested))
      && (|| items == Progress(reached, if state == Failed then ItemFailed else ItemRunning)
          || (state == Running && items == Progress(reached, ItemPending)))
    }

    method RunControlTests() returns (passed: bool, ghost reached: nat)
      requires Ready(0)
      modifies this, bench
      ensures if passed then Ready(K_UART_ITEM) else Halted(reached)
      ensures !uartRestoreInterrupted && (i2cRestoreInterrupted ==> cancelRequested)
      ensures cleanups == old(cleanups) && bench.unreachable == old(bench.unreachable)
      ensures passed ==> bench.commands == old(bench.commands) + [0x01] + [0x02] + [K_TOGGLE_I2C] + [0x02] + [K_TOGGLE_I2C]
    {
      reached := K_POWER_ITEM;
      passed := RunPower();
      if !passed {
        return;
      }
      reached := K_I2C_ITEM;
      passed := Delay();
      if !passed {
        return;
      }
      passed := RunI2c();
      if !passed {
        return;
      }
      reached := K_GROVE_I2C_ITEM;
      passed := Delay();
      if !passed {
        return;
      }
      passed := RunGroveI2c();
      if !passed {
        return;
      }
      reached := K_UART_ITEM;
      passed := Delay();
    }

    method RunSerialTests() returns (passed: bool, ghost reached: nat, ghost hat: Heard, ghost grove: Heard)
      requires Ready(K_UART_ITEM)
      modifies this, bench
      ensures if passed then Ready(K_USB_ITEM) else Halted(reached)
      ensures passed ==> GoodDialogue(hat) && GoodDialogue(grove)
      ensures !i2cRestoreInterrupted && (uartRestoreInterrupted ==> cancelRequested)
      ensures cleanups == old(cleanups) && bench.unreachable == old(bench.unreachable)
      ensures passed ==> bench.commands == old(bench.commands) + [0x03] + [K_TOGGLE_UART] + [0x03] + [K_TOGGLE_UART] + [0x05]
    {
      reached, grove := K_UART_ITEM, SILENCE;
      passed, hat := RunUart();
      if !passed {
        return;
      }
      reached := K_GROVE_UART_ITEM;
      passed := Delay();
      if !passed {
        return;
      }
      passed, grove := RunGroveUart();
      if !passed {
        return;
      }
      reached := K_SPI_ITEM;
      passed := Delay();
      if !passed {
        return;
      }
      passed := RunSpi();
      if !passed {
        return;
      }
      reached := K_USB_ITEM;
      passed := Delay();
    }

    method RunPinTests() returns (passed: bool, ghost reached: nat)
      requires Ready(K_USB_ITEM)
      modifies this, bench
      ensures if passed then Consistent() && state == Running && items == Progress(K_ITEMS, ItemPending)
              else Halted(reached)
      ensures Undisturbed()
      ensures cleanups == old(cleanups) && bench.unreachable == old(bench.unreachable)
      ensures passed ==> bench.commands == old(bench.commands) + [0x04] + [0x06] + [0x00]
    {
      reached := K_USB_ITEM;
      passed := RunUsb();
      if !passed {
        return;
      }
      reached := K_GPIO_ITEM;
      passed := Delay();
      if !passed {
        return;
      }
      passed := RunGpio();
    }

    /** All eight tests in order, stopping at the first that does not pass. */
    method RunTests() returns (passed: bool, ghost reached: nat, ghost hat: Heard, ghost grove: Heard)
      requires Ready(0)
      modifies this, bench
      ensures if passed then Consistent() && state == Running && items == Progress(K_ITEMS, ItemPending)
              else Halted(reached)
      ensures passed ==> GoodDialogue(hat) && GoodDialogue(grove)
      ensures i2cRestoreInterrupted || uartRestoreInterrupted ==> cancelRequested && !passed
      ensures cleanups == old(cleanups) && bench.unreachable == old(bench.unreachable)
      ensures passed ==> bench.commands == TestCommands(old(bench.commands))
    {
      hat, grove := SILENCE, SILENCE;
      passed, reached := RunControlTests();
      if passed {
        passed, reached, hat, grove := RunSerialTests();
      }
      if passed {
        passed, reached := RunPinTests();
      }
    }

    method Start()
      requires state == Idle && Consistent()
      modifies this`state, this`cancelRequested
      ensures state == Running && !cancelRequested
    {
      cancelRequested := false;
      state := Running;
    }

    /** Powers the fixture and resets it; before any test, so a failure is booked on the item set at birth. */
    method PrepareAndReset() returns (ok: bool)
      requires Consistent() && Quiet() && state == Running && items == Progress(0, ItemPending)
      requires activeItem == K_USB_ITEM && bench.capUart == Hat
      requires !hostPinFunctionKnown && !gpioTestLinesReleased
      modifies this`cancelRequested, this`state, this`items,
               bench`hostMux, bench`ext5v, bench`capI2c, bench`capUart, bench`faults, bench`unreachable,
               bench`attempts, bench`commands
      ensures Consistent() && bench.unreachable == old(bench.unreachable)
      ensures ok ==> Ready(0)
      ensures !ok ==> items == if state == Failed then Progress(0, ItemPending)[K_USB_ITEM := ItemFailed]
                               else Progress(0, ItemPending)
      ensures !ok ==> state == Failed || (state == Running && cancelRequested)
      ensures ok ==> bench.commands == old(bench.commands) + [K_RESET_COMMAND]
    {
      ok := bench.SetHostMux(Hat);
      if !ok {
        Fail();
        return;
      }
      ok := bench.SetExt5v(true);
      if !ok {
        Fail();
        return;
      }
      ok := Delay();
      if !ok {
        return;
      }
      var sent := false;
      var attempt := 1;
      while attempt <= 5 && !sent
        invariant Ready(0) && bench.unreachable == old(bench.unreachable)
        invariant bench.capI2c == Hat && bench.capUart == Hat
        invariant bench.commands == old(bench.commands) + if sent then [K_RESET_COMMAND] else []
      {
        var canceled := ObserveCancel();
        if canceled {
          break;
        }
        sent := bench.WriteRegister(1, K_RESET_COMMAND);
        if !sent && attempt < 5 {
          var waited := Delay();
          if !waited {
            break;
          }
        }
        attempt := attempt + 1;
      }
      if !sent {
        var canceled := ObserveCancel();
        if !canceled {
          Fail();
        }
        return false;
      }
      ok := Delay();
    }

    /**
     The whole run, for every choice of failures and every moment of cancellation: the hardware is put
     back exactly once, and the verdict tells what happened. A run canceled before the first test is the
     only one that stays RUNNING.
     */
    method Run()
      returns (ghost prepared: bool, ghost passed: bool, ghost reached: nat, ghost commands: seq<nat>,
               ghost hat: Heard, ghost grove: Heard)
      requires Consistent() && Quiet() && state == Running && items == Progress(0, ItemPending)
      requires activeItem == K_USB_ITEM && bench.capUart == Hat && cleanups == 0
      requires !hostPinFunctionKnown && !gpioTestLinesReleased
      modifies this, bench
      ensures cleanups == 1
      ensures cleanupFaults == 0 ==> Restored()
      ensures cleanupFaults == 0 ==> (bench.capUart == Hat <==> !uartRestoreInterrupted)
      ensures cleanupFaults == 0 ==>
                bench.unreachable == old(bench.unreachable) + if i2cRestoreInterrupted then 1 else 0
      ensures i2cRestoreInterrupted || uartRestoreInterrupted ==> state == Canceled
      ensures state == Passed <==> prepared && passed && !cancelRequested
      ensures state == Passed ==> items == Progress(K_ITEMS, ItemPending)
      ensures state == Running <==> !prepared && items == Progress(0, ItemPending)
      ensures state == Running ==> cancelRequested
      ensures state == Canceled <==> prepared && cancelRequested
      ensures state == Failed ==>
                items == if prepared then Progress(reached, ItemFailed)
                         else Progress(0, ItemPending)[K_USB_ITEM := ItemFailed]
      ensures state == Passed ==> commands == TestCommands(old(bench.commands) + [K_RESET_COMMAND])
      ensures state == Passed ==> GoodDialogue(hat) && GoodDialogue(grove)
    {
      passed, reached, commands, hat, grove := false, 0, bench.commands, SILENCE, SILENCE;
      var ok := PrepareAndReset();
      prepared := ok;
      if !ok {
        ItemSixDiffers();
        Cleanup();
        return;
      }
      var allPassed;
      allPassed, reached, hat, grove := RunTests();
      passed, commands := allPassed, bench.commands;
      Cleanup();
      var canceled := ObserveCancel();
      if canceled {
        state := Canceled;
      } else if allPassed {
        state := Passed;
      }
    }

    /**
     Why the cleanup cannot promise the UART: whenever the channel is on Grove, cancellation while the CAP
     settles after the toggle back makes the cleanup toggle it away again.
     */
    method InterruptUartRestore()
      requires Testing(K_GROVE_UART_ITEM, Hat, Grove) && bench.hostMux == Hat
      modifies this, bench
      ensures uartRestoreInterrupted && cancelRequested && cleanups == old(cleanups) + 1
      ensures cleanupFaults == 0 ==> Restored() && bench.capUart == Grove
    {
      bench.Deliver(1, K_TOGGLE_UART);
      assert bench.capUart == Hat;
      cancelRequested := true;
      uartRestoreInterrupted := true;
      assert Stopped(K_GROVE_UART_ITEM);
      Cleanup();
    }
  }

  lemma ItemSixDiffers()
    ensures Progress(0, ItemPending)[K_USB_ITEM := ItemFailed] != Progress(0, ItemPending)
  {
    assert Progress(0, ItemPending)[K_USB_ITEM] == ItemPending;
  }

  lemma FrameSize(stream: seq<byte>, frame: seq<byte>)
    requires CarriesOnly(stream, frame)
    ensures |frame| == K_FRAME_SIZE
  {
  }
}
