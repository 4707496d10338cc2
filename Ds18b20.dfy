/** The DS18B20 driver state of ds18b20.c: the LPUART1 baud rate, the two
    DMA channels that push command slots out and pull echoes in, the echo
    buffer, the "data received" flag and the last temperature. The busy
    waits of the driver are modelled as completed: each hardware event the
    driver waits for (a DMA transfer finishing, the reset byte coming back)
    is a method call or a parameter. */
module Ds18b20 {
  import opened OneWireCodec

  /** LPUART1 baud rate register values at 4 MHz. */
  const Brr9600: nat := 106667
  const Brr115200: nat := 8889

  /** The 16 slots the decode loop has in its word before reading slot i:
      the slots 16 to i - 1 already read, above the empty ones still to
      come, least significant first. */
  function Window(data: seq<bv8>, i: nat): (w: seq<bv8>)
    requires 16 <= i <= |data| == 32
    ensures |w| == 16
  {
    seq(32 - i, _ => Bit0) + data[16..i]
  }

  lemma WindowStart(data: seq<bv8>)
    requires |data| == 32
    ensures SlotsToWord(Window(data, 16)) == 0
  {
    SlotsToWordZeros(16);
    assert Window(data, 16) == seq(16, _ => Bit0);
  }

  /** Reading slot i halves the word and adds the slot's bit at the top. */
  lemma WindowStep(data: seq<bv8>, i: nat)
    requires 16 <= i < |data| == 32
    ensures SlotsToWord(Window(data, i + 1))
         == SlotsToWord(Window(data, i)) / 2 + (if data[i] == Bit1 then 0x8000 else 0)
  {
    var w := Window(data, i);
    var zeros := seq(31 - i, _ => Bit0);
    assert w == [Bit0] + zeros + data[16..i];
    assert w[1..] == zeros + data[16..i];
    assert data[16..i] + [data[i]] == data[16..i + 1];
    ShiftIn(w, data[i]);
    assert w[1..] + [data[i]] == Window(data, i + 1);
  }

  /** The receive channel writing `echo` to the start of `buffer`, one byte
      per transfer. */
  method Store(buffer: array<bv8>, echo: seq<bv8>)
    requires |echo| <= buffer.Length
    modifies buffer
    ensures buffer[..|echo|] == echo
    ensures buffer[|echo|..] == old(buffer[|echo|..])
  {
    var i := 0;
    while i < |echo|
      invariant 0 <= i <= |echo|
      invariant buffer[..i] == echo[..i]
      invariant buffer[|echo|..] == old(buffer[|echo|..])
    {
      buffer[i] := echo[i];
      i := i + 1;
    }
  }

  class Sensor {
    /** The driver's constant tables `temp_convert` and `temp_read`. */
    const tempConvert: array<bv8>
    const tempRead: array<bv8>
    /** `temperatureData`: where the receive channel puts the echo of
        `temp_read`. */
    const temperatureData: array<bv8>

    var temperatureDataReceived: bool
    var currentTemperature: real

    /** LPUART1->BRR. */
    var brr: nat
    /** DMA2 channel 6 (transmit): memory address, count and enable bit. */
    var txBuffer: array?<bv8>
    var txCount: nat
    var txEnabled: bool
    /** DMA2 channel 7 (receive). */
    var rxBuffer: array?<bv8>
    var rxCount: nat
    var rxEnabled: bool

    /** The three buffers are distinct and hold what the driver's
        definitions give them. */
    predicate Valid()
      reads this, tempConvert, tempRead, temperatureData
    {
      && tempConvert[..] == TempConvert
      && tempRead[..] == TempRead
      && temperatureData.Length == |TempRead|
      && tempConvert != tempRead
      && temperatureData != tempConvert
      && temperatureData != tempRead
    }

    /** The driver after reset: nothing received, temperature 0, both
        channels idle. The baud rate is first set by the first reset. */
    constructor ()
      ensures Valid()
      ensures !temperatureDataReceived && currentTemperature == 0.0
      ensures !txEnabled && !rxEnabled
      ensures fresh(tempConvert) && fresh(tempRead) && fresh(temperatureData)
    {
      tempConvert := new bv8[16](i requires 0 <= i < 16 => TempConvert[i]);
      tempRead := new bv8[32](i requires 0 <= i < 32 => TempRead[i]);
      temperatureData := new bv8[32](_ => Bit0);
      temperatureDataReceived := false;
      currentTemperature := 0.0;
      txBuffer, txCount, txEnabled := null, 0, false;
      rxBuffer, rxCount, rxEnabled := null, 0, false;
      new;
      assert tempConvert[..] == TempConvert;
      assert tempRead[..] == TempRead;
    }

    /** `DS18B20_CMDTransmit`: with a buffer, wait for channel 6 to be idle
        (a transfer still running has completed), point it at the first
        `size` bytes of `cmd` and enable it; with NULL, do nothing. */
    method Transmit(cmd: array?<bv8>, size: byte)
      modifies this
      ensures cmd == null ==> unchanged(this)
      ensures cmd != null ==> txBuffer == cmd && txCount == size && txEnabled
      ensures rxBuffer == old(rxBuffer) && rxCount == old(rxCount) && rxEnabled == old(rxEnabled)
      ensures brr == old(brr) && currentTemperature == old(currentTemperature)
      ensures temperatureDataReceived == old(temperatureDataReceived)
    {
      if cmd != null {
        txBuffer := cmd;
        txCount := size;
        txEnabled := true;
      }
    }

    /** `DS18B20_CMDReceive`: the same for channel 7, which will store the
        echoed bytes into `cmd`. */
    method Receive(cmd: array?<bv8>, size: byte)
      modifies this
      ensures cmd == null ==> unchanged(this)
      ensures cmd != null ==> rxBuffer == cmd && rxCount == size && rxEnabled
      ensures txBuffer == old(txBuffer) && txCount == old(txCount) && txEnabled == old(txEnabled)
      ensures brr == old(brr) && currentTemperature == old(currentTemperature)
      ensures temperatureDataReceived == old(temperatureDataReceived)
    {
      if cmd != null {
        rxBuffer := cmd;
        rxCount := size;
        rxEnabled := true;
      }
    }

    /** `DS18B20_CMDReset`: the reset byte is sent at 9600 baud and `echo`
        is what came back; the UART is then set back to 115200 baud. */
    method Reset(echo: bv8) returns (present: bool)
      modifies this
      ensures present <==> Present(echo)
      ensures brr == Brr115200
      ensures txBuffer == old(txBuffer) && txCount == old(txCount) && txEnabled == old(txEnabled)
      ensures rxBuffer == old(rxBuffer) && rxCount == old(rxCount) && rxEnabled == old(rxEnabled)
      ensures currentTemperature == old(currentTemperature)
      ensures temperatureDataReceived == old(temperatureDataReceived)
    {
      brr := Brr9600;
      var rx := echo;
      if rx != ResetPulse && rx != Bit0 {
        present := true;
      } else {
        present := false;
      }
      brr := Brr115200;
    }

    /** `DMA2_Channel6_IRQHandler` on transfer complete: channel 6 is
        disabled. */
    method TxComplete()
      modifies this
      ensures !txEnabled
      ensures txBuffer == old(txBuffer) && txCount == old(txCount)
      ensures rxBuffer == old(rxBuffer) && rxCount == old(rxCount) && rxEnabled == old(rxEnabled)
      ensures brr == old(brr) && currentTemperature == old(currentTemperature)
      ensures temperatureDataReceived == old(temperatureDataReceived)
    {
      txEnabled := false;
    }

    /** Channel 7 has stored `echo`, one byte per slot, into its buffer, and
        `DMA2_Channel7_IRQHandler` disables it and raises the flag. */
    method RxComplete(echo: seq<bv8>)
      requires rxEnabled && rxBuffer != null && |echo| == rxCount <= rxBuffer.Length
      modifies this, rxBuffer
      ensures rxBuffer == old(rxBuffer) && rxCount == old(rxCount)
      ensures rxBuffer[..rxCount] == echo
      ensures rxBuffer[rxCount..] == old(rxBuffer[rxCount..])
      ensures !rxEnabled && temperatureDataReceived
      ensures txBuffer == old(txBuffer) && txCount == old(txCount) && txEnabled == old(txEnabled)
      ensures brr == old(brr) && currentTemperature == old(currentTemperature)
    {
      Store(rxBuffer, echo);
      rxEnabled := false;
      temperatureDataReceived := true;
    }

    /** The decode loop of `DS18B20_Process`: read slots 16 to 31 of the
        echo, each one shifted in from the top, so the first becomes bit 0. */
    method Decode() returns (temperature: uint16)
      requires Valid()
      ensures temperature == ScratchpadTemperature(temperatureData[..])
    {
      temperature := 0;
      WindowStart(temperatureData[..]);
      for i := 16 to 32
        invariant temperature == SlotsToWord(Window(temperatureData[..], i))
      {
        WindowStep(temperatureData[..], i);
        if temperatureData[i] == Bit1 {
          temperature := temperature / 2 + 0x8000;
        } else {
          temperature := temperature / 2;
        }
      }
      assert Window(temperatureData[..], 32) == temperatureData[16..];
    }

    /** `DS18B20_Process`: a reset; if a sensor answers, Convert T, the
        conversion delay, a second reset, the receive channel armed on
        `temperatureData`, Read Scratchpad with its read slots, and the
        reading decoded once the echo is in. `resetEcho` and `secondEcho`
        are the bytes the two resets read back, `readEcho` the 32 bytes
        that come back while `temp_read` is on the bus. */
    method Process(resetEcho: bv8, secondEcho: bv8, readEcho: seq<bv8>)
      requires Valid() && |readEcho| == |TempRead|
      modifies this, temperatureData
      ensures Valid()
      ensures Present(resetEcho) ==>
        && temperatureData[..] == readEcho
        && currentTemperature == Celsius(ScratchpadTemperature(readEcho))
        && !temperatureDataReceived
        && txBuffer == tempRead && txCount == |TempRead| && !txEnabled
        && rxBuffer == temperatureData && rxCount == |TempRead| && !rxEnabled
      ensures !Present(resetEcho) ==>
        && temperatureData[..] == old(temperatureData[..])
        && currentTemperature == 0.0
        && temperatureDataReceived == old(temperatureDataReceived)
        && txBuffer == old(txBuffer) && txCount == old(txCount) && txEnabled == old(txEnabled)
        && rxBuffer == old(rxBuffer) && rxCount == old(rxCount) && rxEnabled == old(rxEnabled)
      ensures brr == Brr115200
    {
      var isSensor := Reset(resetEcho);
      if isSensor {
        Transmit(tempConvert, tempConvert.Length as byte);
        // The conversion delay outlasts the 16 slots of `temp_convert`.
        TxComplete();
        var _ := Reset(secondEcho);
        Receive(temperatureData, temperatureData.Length as byte);
        Transmit(tempRead, tempRead.Length as byte);
        // Each slot echoes after it is sent, so the transmit channel is
        // done before the receive channel.
        TxComplete();
        RxComplete(readEcho);
        temperatureDataReceived := false;
        var temperature := Decode();
        currentTemperature := Celsius(temperature);
      } else {
        currentTemperature := 0.0;
      }
    }
  }
}
