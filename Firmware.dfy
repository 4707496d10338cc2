/** One iteration of the firmware's main loop: read the sensor, then run
    the cook state machine on the temperature just read. The display
    updates between the two are output only. */
module Firmware {
  import opened OneWireCodec
  import opened Ds18b20
  import opened CookCommands
  import opened CookController

  /** `DS18B20_Process` then the `switch (status)` of `main`. The bus
      echoes, the SysTick value and the PID output are what the hardware
      and `compute` supply. */
  method LoopIteration(sensor: Sensor, controller: Controller,
                       resetEcho: bv8, secondEcho: bv8, readEcho: seq<bv8>,
                       now: bv32, output: bv32)
    requires sensor.Valid() && controller.Valid() && |readEcho| == |TempRead|
    requires {sensor, sensor.temperatureData} !! {controller, controller.buffer}
    modifies sensor, sensor.temperatureData, controller
    ensures sensor.Valid() && controller.Valid()
    ensures sensor.currentTemperature
         == if Present(resetEcho) then Celsius(ScratchpadTemperature(readEcho)) else 0.0
    ensures controller.Snapshot()
         == Next(old(controller.Snapshot()), sensor.currentTemperature, now, output)
  {
    sensor.Process(resetEcho, secondEcho, readEcho);
    assert controller.Valid() && controller.Snapshot() == old(controller.Snapshot());
    controller.Step(sensor.currentTemperature, now, output);
  }

  /** Without a sensor the temperature reads 0, so once a set-point has
      been accepted (above 20 degrees) warming never reaches it: with no
      command pending the state machine stays in WARMING. */
  lemma NoSensorKeepsWarming(c: Cook, now: bv32, output: bv32)
    requires c.status == Warming && TemperatureAccepted(c.cookingTemperature)
    requires c.command != Pause && c.command != Stop
    ensures Next(c, 0.0, now, output) == c
  {
  }

  /** START before any TEMP or TIME: the set-point 0 counts as reached
      at once and the cooking time 0 as elapsed, so three passes of the
      main loop go from REST through WARMING and COOKING to FINISHED. */
  lemma StartWithoutSettings(t: real, now: bv32, output: bv32)
    requires t >= 0.0
    ensures var w := Next(Initial.(command := Start), t, now, output);
      var k := Next(w, t, now, output);
      w.status == Warming && k.status == Cooking && Next(k, t, now, output).status == Finished
  {
  }
}
