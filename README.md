# SprigRig hub firmware and host tools — a Dafny model

SprigRig is a grow-rig controller. A Raspberry Pi host talks over RS-485 to STM32 "sensor hub"
boards. Each hub is a Modbus RTU slave. It serves a small table of 16-bit holding registers: analog
inputs, climate readings, digital inputs, hub id and firmware version. It takes register writes
that drive its two analog outputs. The hub reads I2C sensors through small drivers:

- Bosch BME280 and BME680 climate sensors;
- a Sensirion SCD40 CO2 sensor;
- a ROHM BH1750 light sensor;
- Atlas Scientific EZO pH/EC/ORP/DO/RTD circuits.

The host side has a Modbus timing test script and an MJPEG camera stream server.

This project models that core in Dafny and proves properties of the model:

- **Modbus slave** (`modbus_slave.dfy`, `modbus_engine.dfy`, `crc16.dfy`).
  - A pure specification, `ModbusSlave.React`, says what reply, register change and write callback
    each received frame produces.
  - The slave handle is a class `ModbusEngine.Slave`. Its receive buffer and transmit buffer are
    arrays and its register table is an array. Its methods (`RxByte`, `Tick`, `Poll`,
    `ProcessFrame`, the two function handlers, `SendException`, `SendResponse`) are proved against
    `React`.
  - The table-driven CRC-16 is proved equal to the bitwise reflected polynomial 0xA001. Every
    reply the slave sends is proved to carry a valid CRC trailer.
- **Sensor hub application** (`sensor_hub.dfy`): the current and voltage conversions, the
  address-switch and digital-input reading, the register update and the analog-output write hook.
- **Drivers** (`bme280.dfy`, `bme680.dfy`, `scd40.dfy`, `bh1750.dfy`, `atlas_text.dfy`,
  `atlas_ezo.dfy`).
  - Each handle is a class. Bus traffic is an input: whether each write is acknowledged, and the
    bytes a read returns. The writes a call makes are kept in a ghost log.
  - Calibration unpacking, compensation, command encodings and reply parsing are functions, with
    round-trip and range lemmas.
- **Host tools** (`host_test.dfy`, `mjpeg_stream.dfy`):
  - the Python CRC and command builder of the timing test, proved to agree with the firmware's
    CRC;
  - the JPEG frame extraction loop of the stream server.

Source paths below are relative to the repository snapshots:

- `Sprigrig_Hub_firmware-main/…` holds the hub firmware;
- `SprigRig-main-main/…` holds the main repository, with the EZO driver and the host tools.

## Model

| member | source | states |
|---|---|---|
| ModbusCrc.TableMatchesPolynomial | Sprigrig_Hub_firmware-main/Sprigrig_Hub_firmware-main/Core/Src/modbus.c:18-51 | each of the 256 entries of the CRC lookup table is the result of eight shift-and-xor steps of the reflected polynomial 0xA001 applied to its index |
| ModbusCrc.TableStepIsBitStep | Sprigrig_Hub_firmware-main/Sprigrig_Hub_firmware-main/Core/Src/modbus.c:59-62 | one table step (xor the byte in, shift a byte out, xor the table entry) equals eight bitwise polynomial steps |
| ModbusCrc.TableCrcIsBitCrc | Sprigrig_Hub_firmware-main/Sprigrig_Hub_firmware-main/Core/Src/modbus.c:56-65 | the table-driven CRC of any byte sequence equals the bit-at-a-time CRC-16/MODBUS |
| ModbusCrc.Crc16Empty | Sprigrig_Hub_firmware-main/Sprigrig_Hub_firmware-main/Core/Src/modbus.c:56-65 | the CRC of no bytes is the initial register value 0xFFFF |
| ModbusCrc.ComputeCrc16 | Sprigrig_Hub_firmware-main/Sprigrig_Hub_firmware-main/Core/Src/modbus.c:56-65 | the loop over the first `len` bytes of the buffer returns the CRC of exactly those bytes |
| ModbusCrc.TrailerOf | Sprigrig_Hub_firmware-main/Sprigrig_Hub_firmware-main/Core/Src/modbus.c:222-224 | the two trailer bytes are the CRC low byte first, high byte second: reassembled they give the CRC back |
| ModbusCrc.TrailerOfIff | Sprigrig_Hub_firmware-main/Sprigrig_Hub_firmware-main/Core/Src/modbus.c:155-159 | a frame's last two bytes, read low byte first, equal a CRC exactly when the frame is its body followed by that CRC's trailer |
| ModbusCrc.TrailerMatchesIff | Sprigrig_Hub_firmware-main/Sprigrig_Hub_firmware-main/Core/Src/modbus.c:155-159 | the receive-side CRC check passes exactly when the frame ends with the trailer of its own body |
| ModbusCrc.TrailerRoundTrip | Sprigrig_Hub_firmware-main/Sprigrig_Hub_firmware-main/Core/Src/modbus.c:222-224 | appending the trailer the sender computes always passes the receiver's check |
| ModbusCrc.FrameLayout | Sprigrig_Hub_firmware-main/Sprigrig_Hub_firmware-main/Core/Src/modbus.c:222-224 | a body with its trailer appended keeps the body as prefix, grows by two bytes, and passes the check |
| ModbusSlave.WithErrorBit | Sprigrig_Hub_firmware-main/Sprigrig_Hub_firmware-main/Core/Src/modbus.c:232-242 | the exception function code has bit 7 set and keeps the low seven bits of the request's function code |
| ModbusSlave.ElapsedAcrossWrap | Sprigrig_Hub_firmware-main/Sprigrig_Hub_firmware-main/Core/Src/modbus.c:118-126 | the unsigned 32-bit tick difference gives the true elapsed time even when the millisecond counter wraps between two bytes |
| ModbusSlave.ResponseEvents | Sprigrig_Hub_firmware-main/Sprigrig_Hub_firmware-main/Core/Src/modbus.c:247-265 | a transmission raises the RS-485 driver enable, sends the frame and lowers the enable: the line ends in receive mode |
| ModbusSlave.ReplyLeavesReceiveMode | Sprigrig_Hub_firmware-main/Sprigrig_Hub_firmware-main/Core/Src/modbus.c:247-265 | whatever a frame is answered with (or not), the transceiver is back in receive mode afterwards |
| ModbusSlave.RegisterBytes | Sprigrig_Hub_firmware-main/Sprigrig_Hub_firmware-main/Core/Src/modbus.c:209-219 | the read reply carries two bytes per register |
| ModbusSlave.RegisterBytesAt | Sprigrig_Hub_firmware-main/Sprigrig_Hub_firmware-main/Core/Src/modbus.c:215-218 | register j is sent big-endian, high byte at offset 2j and low byte at 2j+1 |
| ModbusSlave.RegisterBytesRoundTrip | Sprigrig_Hub_firmware-main/Sprigrig_Hub_firmware-main/Core/Src/modbus.c:209-219 | decoding the big-endian register bytes gives back exactly the registers that were sent |
| ModbusSlave.SilentIff | Sprigrig_Hub_firmware-main/Sprigrig_Hub_firmware-main/Core/Src/modbus.c:142-182 | no reply is sent exactly when the frame is discarded (shorter than 4 bytes, another slave's address, bad CRC) or it is a broadcast of an unsupported function; a silent frame changes no register, and a discarded one also calls no write callback |
| ModbusSlave.ExceptionReplyLayout | Sprigrig_Hub_firmware-main/Sprigrig_Hub_firmware-main/Core/Src/modbus.c:232-242 | an exception reply is five bytes: address, function code with bit 7 set, exception code, valid CRC |
| ModbusSlave.ReadReplyLayout | Sprigrig_Hub_firmware-main/Sprigrig_Hub_firmware-main/Core/Src/modbus.c:205-224 | a read reply is address, 0x03, byte count 2n, the n registers big-endian and a valid CRC, and fits the transmit buffer for n up to 125 |
| ModbusSlave.WriteReplyLayout | Sprigrig_Hub_firmware-main/Sprigrig_Hub_firmware-main/Core/Src/modbus.c:294-306 | a write reply is eight bytes echoing address, 0x06, register address and value, with a valid CRC |
| ModbusSlave.RepliesAreWellFormed | Sprigrig_Hub_firmware-main/Sprigrig_Hub_firmware-main/Core/Src/modbus.c:142-309 | every reply the slave sends is at least five bytes, fits the transmit buffer, starts with the slave's own address and ends with a valid CRC |
| ModbusSlave.ReadReplyCases | Sprigrig_Hub_firmware-main/Sprigrig_Hub_firmware-main/Core/Src/modbus.c:187-227 | every outcome of a read-holding-registers request is a well-formed reply |
| ModbusSlave.WriteReplyCases | Sprigrig_Hub_firmware-main/Sprigrig_Hub_firmware-main/Core/Src/modbus.c:270-309 | every outcome of a write-single-register request is answered, with a well-formed reply |
| ModbusSlave.ReadHoldingAnswers | Sprigrig_Hub_firmware-main/Sprigrig_Hub_firmware-main/Core/Src/modbus.c:187-227 | a read is answered with data exactly when the request has at least 8 bytes, the quantity is 1..125 and start+quantity is within the table; the data are then the requested registers; otherwise the reply is exception 0x03 (short frame or bad quantity) or 0x02 (range outside the table), and never both |
| ModbusSlave.WriteFootprint | Sprigrig_Hub_firmware-main/Sprigrig_Hub_firmware-main/Core/Src/modbus.c:270-292 | a write changes exactly the addressed register to the requested value and calls the write callback with that pair, exactly when the request has at least 8 bytes and the address is inside the table; otherwise no register changes |
| ModbusSlave.WriteEchoesRequest | Sprigrig_Hub_firmware-main/Sprigrig_Hub_firmware-main/Core/Src/modbus.c:294-306 | a successful write is answered with an exact copy of the request frame |
| ModbusSlave.BroadcastIsAnswered | Sprigrig_Hub_firmware-main/Sprigrig_Hub_firmware-main/Core/Src/modbus.c:163-181 | as written, a broadcast (address 0) read or write is served and answered with the slave's own address; other broadcast functions get no reply |
| ModbusSlave.UnsupportedFunction | Sprigrig_Hub_firmware-main/Sprigrig_Hub_firmware-main/Core/Src/modbus.c:175-181 | an addressed request with any function code other than 0x03 and 0x06 changes nothing and is answered with exception 0x01 |
| ModbusEngine.Slave.Init | Sprigrig_Hub_firmware-main/Sprigrig_Hub_firmware-main/Core/Src/modbus.c:70-92 | the handle starts with an empty receive buffer, no frame pending, no write callback, the given address and register table, and the driver enable low (receive mode) |
| ModbusEngine.Slave.SetWriteCallback | Sprigrig_Hub_firmware-main/Sprigrig_Hub_firmware-main/Core/Src/modbus.c:314-316 | installs or removes the write callback and changes nothing else |
| ModbusEngine.Slave.RxByte | Sprigrig_Hub_firmware-main/Sprigrig_Hub_firmware-main/Core/Src/modbus.c:108-113 | a received byte is appended and its arrival time recorded while the 256-byte buffer has room; a byte arriving at a full buffer is dropped |
| ModbusEngine.Slave.Tick | Sprigrig_Hub_firmware-main/Sprigrig_Hub_firmware-main/Core/Src/modbus.c:118-126 | a frame becomes ready once at least one byte is buffered and the 3.5-character silence (5 ms) has elapsed since the last byte; a ready frame stays ready |
| ModbusEngine.Slave.Poll | Sprigrig_Hub_firmware-main/Sprigrig_Hub_firmware-main/Core/Src/modbus.c:131-137 | with no frame ready nothing happens; with a frame ready the slave reacts to it as `React` specifies (registers, transmissions, callbacks) and then empties the receive buffer |
| ModbusEngine.Slave.ProcessFrame | Sprigrig_Hub_firmware-main/Sprigrig_Hub_firmware-main/Core/Src/modbus.c:142-182 | the registers, the bus traffic and the write-callback calls after processing are exactly those `React` specifies for the received frame |
| ModbusEngine.Slave.FrameCrcOk | Sprigrig_Hub_firmware-main/Sprigrig_Hub_firmware-main/Core/Src/modbus.c:155-159 | the received CRC (low byte first) is compared with the CRC of everything before it |
| ModbusEngine.Slave.HandleReadHoldingRegisters | Sprigrig_Hub_firmware-main/Sprigrig_Hub_firmware-main/Core/Src/modbus.c:187-227 | sends exactly the specified read reply (data or exception) and changes no register |
| ModbusEngine.Slave.FillReadReply | Sprigrig_Hub_firmware-main/Sprigrig_Hub_firmware-main/Core/Src/modbus.c:205-224 | the first n transmit bytes are the read reply for the requested registers |
| ModbusEngine.Slave.FillReadBody | Sprigrig_Hub_firmware-main/Sprigrig_Hub_firmware-main/Core/Src/modbus.c:205-219 | the header and the register bytes are laid out in the transmit buffer, with room for the CRC |
| ModbusEngine.Slave.FillRegisterBytes | Sprigrig_Hub_firmware-main/Sprigrig_Hub_firmware-main/Core/Src/modbus.c:209-219 | the loop puts register start+j big-endian at offsets 3+2j and 4+2j and leaves the header untouched |
| ModbusEngine.ReadDataLayout | Sprigrig_Hub_firmware-main/Sprigrig_Hub_firmware-main/Core/Src/modbus.c:209-219 | bytes placed register by register form the register byte sequence of the reply |
| ModbusEngine.Slave.HandleWriteSingleRegister | Sprigrig_Hub_firmware-main/Sprigrig_Hub_firmware-main/Core/Src/modbus.c:270-309 | the registers, reply and callback calls are exactly those specified for the write request |
| ModbusEngine.Slave.FillWriteReply | Sprigrig_Hub_firmware-main/Sprigrig_Hub_firmware-main/Core/Src/modbus.c:294-306 | the first eight transmit bytes are the write echo with its CRC |
| ModbusEngine.Slave.SendException | Sprigrig_Hub_firmware-main/Sprigrig_Hub_firmware-main/Core/Src/modbus.c:232-242 | transmits exactly the five-byte exception reply and changes nothing else |
| ModbusEngine.Slave.FillException | Sprigrig_Hub_firmware-main/Sprigrig_Hub_firmware-main/Core/Src/modbus.c:233-239 | the first five transmit bytes are the exception reply |
| ModbusEngine.Slave.AppendCrc | Sprigrig_Hub_firmware-main/Sprigrig_Hub_firmware-main/Core/Src/modbus.c:222-224 | appends the CRC trailer of the first n bytes behind them and keeps those bytes |
| ModbusEngine.Slave.SendResponse | Sprigrig_Hub_firmware-main/Sprigrig_Hub_firmware-main/Core/Src/modbus.c:247-265 | raises the driver enable, transmits exactly the first `length` transmit bytes, lowers the enable |
| ModbusEngine.Slave.SetDriverEnable | Sprigrig_Hub_firmware-main/Sprigrig_Hub_firmware-main/Core/Src/modbus.c:97-103 | records one driver-enable level change and nothing else |
| SensorHub.CurrentRange | Sprigrig_Hub_firmware-main/Sprigrig_Hub_firmware-main/Core/Src/sensor_hub.c:213-228 | the 4-20 mA conversion always gives 400..2000 hundredths of a mA; readings at or below the 4 mA count give exactly 400, at or above the 20 mA count exactly 2000 |
| SensorHub.CurrentMonotone | Sprigrig_Hub_firmware-main/Sprigrig_Hub_firmware-main/Core/Src/sensor_hub.c:213-228 | a higher ADC count never gives a lower current |
| SensorHub.VoltageRange | Sprigrig_Hub_firmware-main/Sprigrig_Hub_firmware-main/Core/Src/sensor_hub.c:234-244 | the 0-10 V conversion is monotone and never exceeds 10000 mV; the 10 V count gives exactly 10000 mV and counts up to it give `adc * 10000 / 3878` unclamped |
| SensorHub.SetAnalogOutput | Sprigrig_Hub_firmware-main/Sprigrig_Hub_firmware-main/Core/Src/sensor_hub.c:312-332 | a DAC write happens exactly when the DAC is configured and the channel is 0 or 1; it goes to that channel, carries the value itself when the value is at most 4095 and exactly 4095 when it is larger |
| SensorHub.RegisterWriteTargets | Sprigrig_Hub_firmware-main/Sprigrig_Hub_firmware-main/Core/Src/sensor_hub.c:338-350 | a Modbus write drives the analog output exactly when it targets register 11 (channel 0) or 12 (channel 1) and a DAC is configured, with the value clamped to 4095; writes to other registers drive nothing |
| SensorHub.ActiveLowMask | Sprigrig_Hub_firmware-main/Sprigrig_Hub_firmware-main/Core/Src/sensor_hub.c:90-133 | bit i of the mask is set exactly when pin i+1 reads low; the mask is 0 when all pins are high and 15 when all are low |
| SensorHub.CollectActiveLow | Sprigrig_Hub_firmware-main/Sprigrig_Hub_firmware-main/Core/Src/sensor_hub.c:115-133 | the four conditional ORs build exactly the active-low mask |
| SensorHub.BitsValue | Sprigrig_Hub_firmware-main/Sprigrig_Hub_firmware-main/Core/Src/sensor_hub.c:115-133 | the OR of the four bit flags, read as a number, is the active-low mask |
| SensorHub.ReadAddress | Sprigrig_Hub_firmware-main/Sprigrig_Hub_firmware-main/Core/Src/sensor_hub.c:90-109 | the Modbus address is the active-low DIP-switch value plus one, always in 1..16 |
| SensorHub.ReadDigitalInputs | Sprigrig_Hub_firmware-main/Sprigrig_Hub_firmware-main/Core/Src/sensor_hub.c:115-133 | the input status is the active-low mask of the four inputs, at most 0x0F |
| SensorHub.Hub.Init | Sprigrig_Hub_firmware-main/Sprigrig_Hub_firmware-main/Core/Src/sensor_hub.c:49-83 | every holding register is zero except the hub id 0x5248 ("RH") and the firmware version 0x0100; the BME280 presence flags are the probe results |
| SensorHub.Hub.Update | Sprigrig_Hub_firmware-main/Sprigrig_Hub_firmware-main/Core/Src/sensor_hub.c:250-283 | registers 0-3 take the four ADC readings; each BME280 pair takes temperature (cast to 16 bits) and humidity only when that sensor is present and its read succeeded, otherwise keeps its old values; register 8 takes the digital inputs; registers 9 and up are untouched |
| Bh1750.MtCommandsCarryValue | Sprigrig_Hub_firmware-main/Sprigrig_Hub_firmware-main/Core/Src/bh1750.c:97-111 | the two MTreg commands have the fixed opcodes 0x40-0x47 and 0x60-0x7F and together carry all eight bits of the new MTreg |
| Bh1750.OneShotMode | Sprigrig_Hub_firmware-main/Sprigrig_Hub_firmware-main/Core/Src/bh1750.c:117-137 | each continuous mode is triggered with its one-time counterpart; any other mode byte is sent as is |
| Bh1750.OneShotIdempotent | Sprigrig_Hub_firmware-main/Sprigrig_Hub_firmware-main/Core/Src/bh1750.c:117-137 | mapping a mode to its one-time mode twice is the same as once |
| Bh1750.LuxScale | Sprigrig_Hub_firmware-main/Sprigrig_Hub_firmware-main/Core/Src/bh1750.c:150-170 | with the default MTreg and a full-resolution mode the lux (x100) is `raw * 250 / 3` (raw / 1.2); the lux never decreases with the raw count or a shorter measurement time, and fits 32 bits |
| Bh1750.Sensor.Init | Sprigrig_Hub_firmware-main/Sprigrig_Hub_firmware-main/Core/Src/bh1750.c:29-36 | the handle starts in continuous H-resolution mode with MTreg 69 and no reading |
| Bh1750.Sensor.WriteCmd | Sprigrig_Hub_firmware-main/Sprigrig_Hub_firmware-main/Core/Src/bh1750.c:15-17 | one command byte is sent; the result is whether the sensor acknowledged it |
| Bh1750.Sensor.ResetRegister | Sprigrig_Hub_firmware-main/Sprigrig_Hub_firmware-main/Core/Src/bh1750.c:58-60 | sends the reset command 0x07 alone |
| Bh1750.Sensor.PowerUp | Sprigrig_Hub_firmware-main/Sprigrig_Hub_firmware-main/Core/Src/bh1750.c:65-67 | sends the power-on command 0x01 alone |
| Bh1750.Sensor.PowerOff | Sprigrig_Hub_firmware-main/Sprigrig_Hub_firmware-main/Core/Src/bh1750.c:72-74 | sends the power-down command 0x00 alone |
| Bh1750.Sensor.Start | Sprigrig_Hub_firmware-main/Sprigrig_Hub_firmware-main/Core/Src/bh1750.c:38-53 | power-on, reset and continuous H-resolution are sent in order up to the first unacknowledged one; it succeeds exactly when all three are acknowledged, and only then is the mode stored |
| Bh1750.Sensor.SetMode | Sprigrig_Hub_firmware-main/Sprigrig_Hub_firmware-main/Core/Src/bh1750.c:79-85 | the mode byte is sent and stored only when acknowledged |
| Bh1750.Sensor.SetMTReg | Sprigrig_Hub_firmware-main/Sprigrig_Hub_firmware-main/Core/Src/bh1750.c:91-112 | a value outside 31..254 is refused without bus traffic; otherwise the two MTreg commands and the current mode are sent up to the first failure, MTreg is stored once both MTreg commands are acknowledged, and success needs all three |
| Bh1750.Sensor.TriggerMeasurement | Sprigrig_Hub_firmware-main/Sprigrig_Hub_firmware-main/Core/Src/bh1750.c:117-137 | sends the one-time command for the current mode |
| Bh1750.Sensor.ReadLight | Sprigrig_Hub_firmware-main/Sprigrig_Hub_firmware-main/Core/Src/bh1750.c:142-173 | on a received reply the raw count is the big-endian word and the lux (x100) is computed from it, MTreg and mode; on a failed read nothing changes |
| Bh1750.Sensor.GetLux | Sprigrig_Hub_firmware-main/Sprigrig_Hub_firmware-main/Core/Src/bh1750.c:185-187 | as written: whole lux cast to 16 bits, which equals the lux below 65536 and otherwise differs from it by a multiple of 65536 (it wraps) |
| Bh1750.GetLuxWraps | Sprigrig_Hub_firmware-main/Sprigrig_Hub_firmware-main/Core/Src/bh1750.c:185-187 | with MTreg 31, continuous H-resolution and a full-scale raw count the light is 121556 lx, but `GetLux` reports 56020 while the saturating reading gives 65535 |
| Bh1750.Sensor.GetLuxSaturating | Sprigrig_Hub_firmware-main/Sprigrig_Hub_firmware-main/Core/Src/bh1750.c:185-187 | corrected: never more than the true lux, equal to it below 65535, and 65535 at or above |
| Bh1750.SaturatingMonotone | Sprigrig_Hub_firmware-main/Sprigrig_Hub_firmware-main/Core/Src/bh1750.c:185-187 | the saturating reading never decreases as the light increases (the as-written cast does) |
| Scd40.Crc8CheckValue | Sprigrig_Hub_firmware-main/Sprigrig_Hub_firmware-main/Core/Src/scd40.c:17-32 | the CRC of the bytes 0xBE 0xEF is 0x92, the sensor family's reference value |
| Scd40.ShiftInByte | Sprigrig_Hub_firmware-main/Sprigrig_Hub_firmware-main/Core/Src/scd40.c:21-28 | the eight-iteration bit loop computes one byte step of the CRC |
| Scd40.CalcCrc | Sprigrig_Hub_firmware-main/Sprigrig_Hub_firmware-main/Core/Src/scd40.c:17-32 | the loop over the data computes the CRC-8 of exactly those bytes |
| Scd40.WordFrame | Sprigrig_Hub_firmware-main/Sprigrig_Hub_firmware-main/Core/Src/scd40.c:52-55 | a 16-bit word goes on the bus as three bytes: big-endian word, then its CRC |
| Scd40.CommandWithArg | Sprigrig_Hub_firmware-main/Sprigrig_Hub_firmware-main/Core/Src/scd40.c:48-57 | a command with an argument is five bytes: the big-endian command, then the argument's word frame |
| Scd40.GoodPrefix | Sprigrig_Hub_firmware-main/Sprigrig_Hub_firmware-main/Core/Src/scd40.c:69-79 | the parse loop accepts exactly the leading run of word groups whose CRC matches and stops at the first mismatch |
| Scd40.EncodeWords | Sprigrig_Hub_firmware-main/Sprigrig_Hub_firmware-main/Core/Src/scd40.c:62-82 | the sensor sends three bytes per word |
| Scd40.EncodeWordsGroups | Sprigrig_Hub_firmware-main/Sprigrig_Hub_firmware-main/Core/Src/scd40.c:62-82 | group i of an encoded reply is the word frame of word i |
| Scd40.EncodeDecode | Sprigrig_Hub_firmware-main/Sprigrig_Hub_firmware-main/Core/Src/scd40.c:62-82 | a reply made of correct word frames passes every CRC check and decodes to exactly the words that were sent |
| Scd40.DecodeWords | Sprigrig_Hub_firmware-main/Sprigrig_Hub_firmware-main/Core/Src/scd40.c:62-82 | decoding gives one word per three-byte group, big-endian |
| Scd40.GoodPrefixAll | Sprigrig_Hub_firmware-main/Sprigrig_Hub_firmware-main/Core/Src/scd40.c:69-79 | when every group's CRC matches, the loop runs to the end |
| Scd40.ConversionRanges | Sprigrig_Hub_firmware-main/Sprigrig_Hub_firmware-main/Core/Src/scd40.c:182-196 | temperature (x100) runs monotonically from -45.00 to 130.00 C and humidity (x100) from 0 to 100.00 %RH over the raw range, with exact end points |
| Scd40.OffsetRoundTrip | Sprigrig_Hub_firmware-main/Sprigrig_Hub_firmware-main/Core/Src/scd40.c:204-227 | the temperature offset written as `offset * 65535 / 17500` and read back as `raw * 17500 / 65535` loses at most one hundredth of a degree |
| Scd40.FrcCorrection | Sprigrig_Hub_firmware-main/Sprigrig_Hub_firmware-main/Core/Src/scd40.c:272-277 | a recalibration result of 0xFFFF means failure; any other result is reported as the 16-bit pattern of `result - 0x8000` |
| Scd40.ReadResponse | Sprigrig_Hub_firmware-main/Sprigrig_Hub_firmware-main/Core/Src/scd40.c:62-82 | the read succeeds exactly when the bytes arrive and every group's CRC matches, and then fills all words; words before the first bad group are stored anyway, the rest of the buffer is untouched |
| Scd40.Sensor.Init | Sprigrig_Hub_firmware-main/Sprigrig_Hub_firmware-main/Core/Src/scd40.c:87-94 | the handle starts not measuring with zero readings |
| Scd40.Sensor.SendCommand | Sprigrig_Hub_firmware-main/Sprigrig_Hub_firmware-main/Core/Src/scd40.c:37-43 | sends the command big-endian and reports the acknowledgement |
| Scd40.Sensor.SendCommandWithArg | Sprigrig_Hub_firmware-main/Sprigrig_Hub_firmware-main/Core/Src/scd40.c:48-57 | sends the five-byte command-with-argument frame and reports the acknowledgement |
| Scd40.Sensor.Start | Sprigrig_Hub_firmware-main/Sprigrig_Hub_firmware-main/Core/Src/scd40.c:96-106 | the rest of `SCD40_Init`: stop periodic measurement, then read the serial number; it succeeds exactly when the serial read passes its CRCs |
| Scd40.Sensor.StartPeriodicMeasurement | Sprigrig_Hub_firmware-main/Sprigrig_Hub_firmware-main/Core/Src/scd40.c:111-117 | sends the start command; the measuring flag is set when it is acknowledged |
| Scd40.Sensor.StartLowPowerPeriodicMeasurement | Sprigrig_Hub_firmware-main/Sprigrig_Hub_firmware-main/Core/Src/scd40.c:122-128 | sends the low-power start command; the measuring flag is set when it is acknowledged |
| Scd40.Sensor.StopPeriodicMeasurement | Sprigrig_Hub_firmware-main/Sprigrig_Hub_firmware-main/Core/Src/scd40.c:133-139 | sends the stop command; the measuring flag is cleared when it is acknowledged |
| Scd40.Sensor.MeasureSingleShot | Sprigrig_Hub_firmware-main/Sprigrig_Hub_firmware-main/Core/Src/scd40.c:144-146 | sends the single-shot command |
| Scd40.Sensor.IsDataReady | Sprigrig_Hub_firmware-main/Sprigrig_Hub_firmware-main/Core/Src/scd40.c:151-165 | data is ready exactly when the status word arrives with a good CRC and its low 11 bits are not all zero |
| Scd40.Sensor.ReadMeasurement | Sprigrig_Hub_firmware-main/Sprigrig_Hub_firmware-main/Core/Src/scd40.c:170-199 | on three good words the raw CO2, temperature and humidity are stored and converted; on any failure all readings are unchanged |
| Scd40.Sensor.SetTemperatureOffset | Sprigrig_Hub_firmware-main/Sprigrig_Hub_firmware-main/Core/Src/scd40.c:204-208 | sends the offset converted to sensor ticks |
| Scd40.Sensor.GetTemperatureOffset | Sprigrig_Hub_firmware-main/Sprigrig_Hub_firmware-main/Core/Src/scd40.c:213-227 | a good reply word is converted back to hundredths of a degree; otherwise nothing is reported |
| Scd40.Sensor.SetSensorAltitude | Sprigrig_Hub_firmware-main/Sprigrig_Hub_firmware-main/Core/Src/scd40.c:232-234 | sends the altitude as the argument |
| Scd40.Sensor.GetSensorAltitude | Sprigrig_Hub_firmware-main/Sprigrig_Hub_firmware-main/Core/Src/scd40.c:239-247 | reports the reply word when it passes its CRC |
| Scd40.Sensor.SetAmbientPressure | Sprigrig_Hub_firmware-main/Sprigrig_Hub_firmware-main/Core/Src/scd40.c:252-254 | sends the pressure as the argument |
| Scd40.Sensor.PerformForcedRecalibration | Sprigrig_Hub_firmware-main/Sprigrig_Hub_firmware-main/Core/Src/scd40.c:260-278 | sends the target concentration and reports the correction of a good reply, failing on 0xFFFF |
| Scd40.Sensor.SetAutomaticSelfCalibration | Sprigrig_Hub_firmware-main/Sprigrig_Hub_firmware-main/Core/Src/scd40.c:283-285 | sends 1 to enable and 0 to disable |
| Scd40.Sensor.GetAutomaticSelfCalibration | Sprigrig_Hub_firmware-main/Sprigrig_Hub_firmware-main/Core/Src/scd40.c:290-304 | a good reply word reports enabled exactly when it is non-zero |
| Scd40.Sensor.PersistSettings | Sprigrig_Hub_firmware-main/Sprigrig_Hub_firmware-main/Core/Src/scd40.c:309-315 | sends the persist command |
| Scd40.Sensor.GetSerialNumber | Sprigrig_Hub_firmware-main/Sprigrig_Hub_firmware-main/Core/Src/scd40.c:320-328 | succeeds exactly when all three serial words pass their CRCs and then returns them |
| Scd40.Sensor.PerformSelfTest | Sprigrig_Hub_firmware-main/Sprigrig_Hub_firmware-main/Core/Src/scd40.c:333-347 | a good reply word reports a pass exactly when it is zero |
| Scd40.Sensor.PerformFactoryReset | Sprigrig_Hub_firmware-main/Sprigrig_Hub_firmware-main/Core/Src/scd40.c:352-358 | sends the factory-reset command |
| Scd40.Sensor.Reinit | Sprigrig_Hub_firmware-main/Sprigrig_Hub_firmware-main/Core/Src/scd40.c:363-369 | sends the reinit command |
| Bme280.SignedWordIsInt16 | Sprigrig_Hub_firmware-main/Sprigrig_Hub_firmware-main/Core/Src/bme280.c:115-134 | the signed calibration words are the little-endian 16-bit patterns read as two's complement, within -32768..32767 |
| Bme280.HumidityNibbles | Sprigrig_Hub_firmware-main/Sprigrig_Hub_firmware-main/Core/Src/bme280.c:130-133 | dig_H4 and dig_H5 are 12-bit values that share register 0xE5: H4 takes its low nibble and H5 its high nibble, and together they give back all three bytes |
| Bme280.UnpackCalibration | Sprigrig_Hub_firmware-main/Sprigrig_Hub_firmware-main/Core/Src/bme280.c:100-137 | the unsigned coefficients are little-endian words, the signed ones the same words as int16, dig_H1 is byte 25 of the first block, dig_H3 byte 2 and dig_H6 the signed byte 6 of the second block |
| Bme280.ControlFieldsRoundTrip | Sprigrig_Hub_firmware-main/Sprigrig_Hub_firmware-main/Core/Src/bme280.c:147-159 | the control bytes carry temperature oversampling in bits 7-5, pressure oversampling in bits 4-2 and mode in bits 1-0; the config byte carries standby in bits 7-5 and filter in bits 4-2; each field reads back as written, cut to its width |
| Bme280.ForcedModeKeepsOversampling | Sprigrig_Hub_firmware-main/Sprigrig_Hub_firmware-main/Core/Src/bme280.c:170-179 | forcing a measurement sets mode bits to 01 and keeps both oversampling fields |
| Bme280.IsMeasuring | Sprigrig_Hub_firmware-main/Sprigrig_Hub_firmware-main/Core/Src/bme280.c:184-190 | the sensor is busy exactly when the status read succeeds and bit 3 is set |
| Bme280.Raw20Fields | Sprigrig_Hub_firmware-main/Sprigrig_Hub_firmware-main/Core/Src/bme280.c:204-211 | a 20-bit raw reading takes msb as bits 19-12, lsb as bits 11-4 and the top nibble of xlsb as bits 3-0 |
| Bme280.PressureOf | Sprigrig_Hub_firmware-main/Sprigrig_Hub_firmware-main/Core/Src/bme280.c:251-253 | the pressure is 0 when the compensation divisor is zero, as the code's guard returns |
| Bme280.HumidityOf | Sprigrig_Hub_firmware-main/Sprigrig_Hub_firmware-main/Core/Src/bme280.c:269-289 | the humidity (1/1024 %RH) is the intermediate value clamped to 0..419430400 and shifted right by 12: 0 for a negative intermediate, 102400 (100 %RH) above the ceiling, never more than 102400 |
| Bme280.Sensor.Init | Sprigrig_Hub_firmware-main/Sprigrig_Hub_firmware-main/Core/Src/bme280.c:41-46 | the handle stores the address and starts with zero fine temperature and humidity |
| Bme280.Sensor.WriteReg | Sprigrig_Hub_firmware-main/Sprigrig_Hub_firmware-main/Core/Src/bme280.c:33-36 | one register write; the result is the acknowledgement |
| Bme280.Sensor.Begin | Sprigrig_Hub_firmware-main/Sprigrig_Hub_firmware-main/Core/Src/bme280.c:41-81 | fails without writes on a wrong chip id; otherwise soft reset, calibration read, then humidity x1, standby 1000 ms with filter 16, temperature x2 / pressure x16 normal mode, each write only after the previous one succeeded; succeeds exactly when all steps do; a refused reset leaves only the reset write and the old calibration, a failed calibration read leaves the old calibration and no further writes |
| Bme280.Sensor.ReadCalibration | Sprigrig_Hub_firmware-main/Sprigrig_Hub_firmware-main/Core/Src/bme280.c:100-137 | succeeds exactly when both calibration blocks were read, and only then stores the unpacked coefficients |
| Bme280.Sensor.Configure | Sprigrig_Hub_firmware-main/Sprigrig_Hub_firmware-main/Core/Src/bme280.c:142-165 | writes humidity control, config and measurement control in that order, stopping at the first failure |
| Bme280.Sensor.TriggerMeasurement | Sprigrig_Hub_firmware-main/Sprigrig_Hub_firmware-main/Core/Src/bme280.c:170-179 | reads the measurement control byte and writes it back in forced mode; fails without a write when the read fails |
| Bme280.Sensor.ReadAll | Sprigrig_Hub_firmware-main/Sprigrig_Hub_firmware-main/Core/Src/bme280.c:195-214 | on a successful 8-byte read the raw fields are unpacked and the temperature, pressure and humidity compensated from them in that order; on failure nothing changes |
| Bme280.Sensor.CompensateTemp | Sprigrig_Hub_firmware-main/Sprigrig_Hub_firmware-main/Core/Src/bme280.c:220-234 | stores t_fine and returns the temperature in hundredths derived from it |
| Bme280.Sensor.GetHumidityX100 | Sprigrig_Hub_firmware-main/Sprigrig_Hub_firmware-main/Core/Src/bme280.c:301-304 | the humidity in hundredths of %RH is the stored 1/1024 value times 100, rounded down, and never exceeds 10000 |
| Bme680.WithCoefficients | Sprigrig_Hub_firmware-main/Sprigrig_Hub_firmware-main/Core/Src/bme680.c:131-158 | the coefficients come from the two calibration blocks at their documented offsets (e.g. par_t1 little-endian at 8-9 of the second block, par_t2 signed at 1-2 of the first, par_t3 signed byte 3); par_h1 and par_h2 share a nibble byte; the heater fields are kept |
| Bme680.HumidityNibbles | Sprigrig_Hub_firmware-main/Sprigrig_Hub_firmware-main/Core/Src/bme680.c:150-153 | par_h1 and par_h2 are 12-bit values whose shared byte splits into their low nibbles, losing nothing |
| Bme680.HeatRange | Sprigrig_Hub_firmware-main/Sprigrig_Hub_firmware-main/Core/Src/bme680.c:166 | the heater range is bits 5-4 of register 0x02, 0..3 |
| Bme680.SwitchingError | Sprigrig_Hub_firmware-main/Sprigrig_Hub_firmware-main/Core/Src/bme680.c:176 | the range switching error is register 0x04 read as int8 and divided by 16 with truncation toward zero: -8..7, and the high nibble for values below 0x80 |
| Bme680.HeaterTarget | Sprigrig_Hub_firmware-main/Sprigrig_Hub_firmware-main/Core/Src/bme680.c:215-217 | the heater target is clamped to 400 C and is the requested value whenever that is at most 400 |
| Bme680.HeaterResClamped | Sprigrig_Hub_firmware-main/Sprigrig_Hub_firmware-main/Core/Src/bme680.c:210-229 | any request at or above 400 C gives the same heater resistance code as 400 C |
| Bme680.Pow4 | Sprigrig_Hub_firmware-main/Sprigrig_Hub_firmware-main/Core/Src/bme680.c:234-249 | the duration multiplier is at least 1 |
| Bme680.EncodeSteps | Sprigrig_Hub_firmware-main/Sprigrig_Hub_firmware-main/Core/Src/bme680.c:234-249 | the loop that divides by four while the duration exceeds 63 computes the closed-form code |
| Bme680.HeaterDurMeaning | Sprigrig_Hub_firmware-main/Sprigrig_Hub_firmware-main/Core/Src/bme680.c:234-249 | the encoded heater duration (6-bit value, 2-bit multiplier of 1, 4, 16 or 64) never exceeds the request, is within one step of it below 4032 ms, and durations up to 63 ms are encoded exactly |
| Bme680.CalcHeaterDur | Sprigrig_Hub_firmware-main/Sprigrig_Hub_firmware-main/Core/Src/bme680.c:234-249 | the loop computes the heater duration code |
| Bme680.ControlEditsKeepOtherBits | Sprigrig_Hub_firmware-main/Sprigrig_Hub_firmware-main/Core/Src/bme680.c:275 | selecting a heater profile changes only bits 3-0 of ctrl_gas_1, and switching the gas run changes only bit 4; switching it to its current state leaves the register as it was |
| Bme680.HumidityOf | Sprigrig_Hub_firmware-main/Sprigrig_Hub_firmware-main/Core/Src/bme680.c:420-446 | the humidity (1/1000 %RH) equals the unclamped value when that lies in 0..100000, is 100000 above it and 0 below it |
| Bme680.GasAdcFields | Sprigrig_Hub_firmware-main/Sprigrig_Hub_firmware-main/Core/Src/bme680.c:342-361 | the 10-bit gas ADC takes msb as bits 9-2 and the top two bits of lsb as bits 1-0 |
| Bme680.IsMeasuring | Sprigrig_Hub_firmware-main/Sprigrig_Hub_firmware-main/Core/Src/bme680.c:317-323 | the sensor is busy exactly when the status read succeeds and bit 5 is set |
| Bme680.Sensor.Init | Sprigrig_Hub_firmware-main/Sprigrig_Hub_firmware-main/Core/Src/bme680.c:62-70 | the handle starts with no gas reading and zero temperature |
| Bme680.Sensor.WriteReg | Sprigrig_Hub_firmware-main/Sprigrig_Hub_firmware-main/Core/Src/bme680.c:54-57 | one register write; the result is the acknowledgement |
| Bme680.Sensor.Begin | Sprigrig_Hub_firmware-main/Sprigrig_Hub_firmware-main/Core/Src/bme680.c:62-100 | fails without writes on a wrong chip id; otherwise soft reset, calibration read, then the default configuration and gas heater; on success the calibration holds the decoded coefficients and heater fields; on every failure the writes are the reset (when the id matched) followed by the default writes made up to the first failure, and the calibration holds what the calibration reads stored before the first failed read |
| Bme680.Sensor.ApplyDefaults | Sprigrig_Hub_firmware-main/Sprigrig_Hub_firmware-main/Core/Src/bme680.c:89-97 | temperature x2, pressure x16, humidity x1, filter 16, then heater profile 0 at 300 C for 100 ms are written in order; it succeeds exactly when every write is acknowledged and ctrl_gas_1 was read, and then the writes are exactly those six; otherwise they are a non-empty prefix of the six ending at the first refused write, the profile bits being left out when ctrl_gas_1 could not be read |
| Bme680.Sensor.ReadCalibration | Sprigrig_Hub_firmware-main/Sprigrig_Hub_firmware-main/Core/Src/bme680.c:119-179 | the coefficients are stored when both blocks are read; the heater range, heater value and switching error are then stored one by one until the first failed register read; success needs all five reads |
| Bme680.Sensor.Configure | Sprigrig_Hub_firmware-main/Sprigrig_Hub_firmware-main/Core/Src/bme680.c:184-205 | writes humidity control, config (filter) and measurement control in sleep mode, stopping at the first failure |
| Bme680.Sensor.ConfigureGasHeater | Sprigrig_Hub_firmware-main/Sprigrig_Hub_firmware-main/Core/Src/bme680.c:254-281 | writes the heater resistance, then the wait-time code, then the profile bits of ctrl_gas_1, each only after the previous step succeeded |
| Bme680.Sensor.TriggerMeasurement | Sprigrig_Hub_firmware-main/Sprigrig_Hub_firmware-main/Core/Src/bme680.c:286-312 | sets or clears the gas-run bit of ctrl_gas_1, then writes measurement control in forced mode, stopping at the first failure |
| Bme680.Sensor.CompensateTemp | Sprigrig_Hub_firmware-main/Sprigrig_Hub_firmware-main/Core/Src/bme680.c:369-381 | stores t_fine and returns the temperature in hundredths derived from it |
| Bme680.Sensor.StoreRaw | Sprigrig_Hub_firmware-main/Sprigrig_Hub_firmware-main/Core/Src/bme680.c:342-361 | the raw pressure, temperature, humidity and gas fields and the gas-valid and heater-stable flags are decoded from the data block |
| Bme680.Sensor.Compensate | Sprigrig_Hub_firmware-main/Sprigrig_Hub_firmware-main/Core/Src/bme680.c:342-361 | the temperature is compensated first, then pressure and humidity use the new t_fine; humidity stays within 100 % |
| Bme680.Sensor.ReadAll | Sprigrig_Hub_firmware-main/Sprigrig_Hub_firmware-main/Core/Src/bme680.c:328-364 | fails with nothing changed unless the block is read and the new-data bit is set; otherwise all raw fields and compensated values are updated, and the gas resistance is stored only when both the gas-valid and heater-stable bits are set, 0 otherwise |
| Bme680.Sensor.GetHumidityX100 | Sprigrig_Hub_firmware-main/Sprigrig_Hub_firmware-main/Core/Src/bme680.c:476-478 | the humidity in hundredths of %RH is the stored thousandths divided by ten, at most 10000 |
| AtlasText.ParseFloatX1000 | SprigRig-main-main/SprigRig-main-main/Sprigrig_Hub_firmware-main/Core/Src/atlas_ezo.c:18-58 | the scanning loop computes the fixed-point parse `ParseAt` of the text: optional leading spaces and minus, whole digits, at most three decimals padded to thousandths, stopping at a comma, CR, LF or the terminator and skipping any other character |
| AtlasText.PadDecimals | SprigRig-main-main/SprigRig-main-main/Sprigrig_Hub_firmware-main/Core/Src/atlas_ezo.c:50-54 | the padding loop scales the decimals read to thousandths: `decimal * 10^(3 - places)` |
| AtlasText.ReadDigits | SprigRig-main-main/SprigRig-main-main/Sprigrig_Hub_firmware-main/Core/Src/atlas_ezo.c:32-48 | the digit loop returns the whole part, the decimals kept (at most three) and their count, for the field up to its terminator |
| AtlasText.ParseExampleDecimals | SprigRig-main-main/SprigRig-main-main/Sprigrig_Hub_firmware-main/Core/Src/atlas_ezo.c:18-58 | "7.123" parses to 7123 |
| AtlasText.ParseExampleWhole | SprigRig-main-main/SprigRig-main-main/Sprigrig_Hub_firmware-main/Core/Src/atlas_ezo.c:18-58 | "25" parses to 25000 |
| AtlasText.ParseExampleNegative | SprigRig-main-main/SprigRig-main-main/Sprigrig_Hub_firmware-main/Core/Src/atlas_ezo.c:18-58 | "-0.5" parses to -500 |
| AtlasText.ParseStopsAtTerminator | SprigRig-main-main/SprigRig-main-main/Sprigrig_Hub_firmware-main/Core/Src/atlas_ezo.c:44-46 | whatever follows a comma, CR or LF does not change the value |
| AtlasText.ParseSkips | SprigRig-main-main/SprigRig-main-main/Sprigrig_Hub_firmware-main/Core/Src/atlas_ezo.c:32-48 | a character that is neither a digit, a point nor a terminator is skipped without changing the value |
| AtlasText.ParseDropsFourthDecimal | SprigRig-main-main/SprigRig-main-main/Sprigrig_Hub_firmware-main/Core/Src/atlas_ezo.c:36-40 | digits after the third decimal are ignored |
| AtlasText.ParseHundredths | SprigRig-main-main/SprigRig-main-main/Sprigrig_Hub_firmware-main/Core/Src/atlas_ezo.c:18-58 | a value written with two decimals, with or without a minus, parses to ten times its hundredths |
| AtlasText.ParseWhole | SprigRig-main-main/SprigRig-main-main/Sprigrig_Hub_firmware-main/Core/Src/atlas_ezo.c:18-58 | a whole number parses to a thousand times its value |
| AtlasText.DecimalStringValue | SprigRig-main-main/SprigRig-main-main/Sprigrig_Hub_firmware-main/Core/Src/atlas_ezo.c:229 | the decimal rendering of a number (as `%d` writes it) reads back as that number |
| AtlasText.TwoDigitsValue | SprigRig-main-main/SprigRig-main-main/Sprigrig_Hub_firmware-main/Core/Src/atlas_ezo.c:321 | the two-digit zero-padded rendering (`%02d`) reads back as the number |
| AtlasText.AtoiDecimal | SprigRig-main-main/SprigRig-main-main/Sprigrig_Hub_firmware-main/Core/Src/atlas_ezo.c:387-389 | `atoi` of a decimal rendering gives the number back |
| AtlasText.CString | SprigRig-main-main/SprigRig-main-main/Sprigrig_Hub_firmware-main/Core/Src/atlas_ezo.c:162-169 | the C string of a buffer is its longest prefix without a NUL, and the NUL follows it when the buffer is longer |
| AtlasText.CommaFrom | SprigRig-main-main/SprigRig-main-main/Sprigrig_Hub_firmware-main/Core/Src/atlas_ezo.c:80 | `strchr(s, ',')` finds a comma at or after the start position |
| AtlasText.CommaFromMeaning | SprigRig-main-main/SprigRig-main-main/Sprigrig_Hub_firmware-main/Core/Src/atlas_ezo.c:80 | no comma lies between the start and the comma found (or the end when there is none) |
| AtlasText.AfterCommaCounts | SprigRig-main-main/SprigRig-main-main/Sprigrig_Hub_firmware-main/Core/Src/atlas_ezo.c:80-95 | the position after the (k+1)-th comma has exactly k+1 commas before it; when it does not exist the text has at most k commas |
| AtlasText.JoinFields | SprigRig-main-main/SprigRig-main-main/Sprigrig_Hub_firmware-main/Core/Src/atlas_ezo.c:80-95 | in comma-joined comma-free fields, the text after the (k+1)-th comma is the join of the fields from k+1 on |
| AtlasEzo.Divisor | SprigRig-main-main/SprigRig-main-main/Sprigrig_Hub_firmware-main/Core/Src/atlas_ezo.c:70-110 | the thousandths of a parsed reading are divided by 1, 10 or 1000: pH is kept in thousandths, DO and RTD in hundredths, EC and ORP in whole units |
| AtlasEzo.Scaled | SprigRig-main-main/SprigRig-main-main/Sprigrig_Hub_firmware-main/Core/Src/atlas_ezo.c:70-110 | the stored reading is the parsed thousandths divided by the type's divisor with truncation toward zero: pH keeps thousandths, sign is preserved and the magnitude is the magnitude's quotient |
| AtlasEzo.FieldValue | SprigRig-main-main/SprigRig-main-main/Sprigrig_Hub_firmware-main/Core/Src/atlas_ezo.c:80-95 | the field after the (k+1)-th comma exists exactly when the text has that comma |
| AtlasEzo.ExtraField | SprigRig-main-main/SprigRig-main-main/Sprigrig_Hub_firmware-main/Core/Src/atlas_ezo.c:80-95 | an EC extra (TDS, salinity, specific gravity) keeps its previous value when its comma is missing |
| AtlasEzo.FieldPresent | SprigRig-main-main/SprigRig-main-main/Sprigrig_Hub_firmware-main/Core/Src/atlas_ezo.c:80-95 | field k is present exactly when the text has more than k commas |
| AtlasEzo.FieldsStop | SprigRig-main-main/SprigRig-main-main/Sprigrig_Hub_firmware-main/Core/Src/atlas_ezo.c:80-95 | once a field is missing all later fields are missing, as the nested lookups stop |
| AtlasEzo.FieldValueJoin | SprigRig-main-main/SprigRig-main-main/Sprigrig_Hub_firmware-main/Core/Src/atlas_ezo.c:70-95 | for a reply made of plain number fields, the main reading is the first field and field k is the parse of the (k+1)-th field |
| AtlasEzo.FirstFieldValue | SprigRig-main-main/SprigRig-main-main/Sprigrig_Hub_firmware-main/Core/Src/atlas_ezo.c:334-336 | the value after the first comma of "prefix,value" is the parse of the value |
| AtlasEzo.EcTwoFields | SprigRig-main-main/SprigRig-main-main/Sprigrig_Hub_firmware-main/Core/Src/atlas_ezo.c:74-98 | an EC reply "ec,tds" yields the conductivity and TDS and leaves salinity and specific gravity as they were |
| AtlasEzo.LedReply | SprigRig-main-main/SprigRig-main-main/Sprigrig_Hub_firmware-main/Core/Src/atlas_ezo.c:267-279 | the LED query is answered exactly when the reply has a comma |
| AtlasEzo.LedRoundTrip | SprigRig-main-main/SprigRig-main-main/Sprigrig_Hub_firmware-main/Core/Src/atlas_ezo.c:267-279 | "?L,1" reads as on and "?L,0" as off |
| AtlasEzo.TemperatureReply | SprigRig-main-main/SprigRig-main-main/Sprigrig_Hub_firmware-main/Core/Src/atlas_ezo.c:328-340 | the temperature compensation query is answered exactly when the reply has a comma, with a 16-bit value in hundredths |
| AtlasEzo.TemperatureRoundTrip | SprigRig-main-main/SprigRig-main-main/Sprigrig_Hub_firmware-main/Core/Src/atlas_ezo.c:328-340 | a temperature written with two decimals and a sign reads back as the same hundredths |
| AtlasEzo.ProbeTypeReply | SprigRig-main-main/SprigRig-main-main/Sprigrig_Hub_firmware-main/Core/Src/atlas_ezo.c:448-459 | the probe-type query is answered exactly when the reply has a comma |
| AtlasEzo.ProbeTypeRoundTrip | SprigRig-main-main/SprigRig-main-main/Sprigrig_Hub_firmware-main/Core/Src/atlas_ezo.c:448-459 | a K value written with two decimals reads back as the same hundredths |
| AtlasEzo.CalPointsReply | SprigRig-main-main/SprigRig-main-main/Sprigrig_Hub_firmware-main/Core/Src/atlas_ezo.c:381-393 | the calibration-points query is answered exactly when the reply has a comma |
| AtlasEzo.CalPointsRoundTrip | SprigRig-main-main/SprigRig-main-main/Sprigrig_Hub_firmware-main/Core/Src/atlas_ezo.c:381-393 | a point count written in decimal reads back as that count |
| AtlasEzo.SlopeField | SprigRig-main-main/SprigRig-main-main/Sprigrig_Hub_firmware-main/Core/Src/atlas_ezo.c:404-412 | each slope field is present exactly when its comma is, and is cast to 16 bits |
| AtlasEzo.SlopeReply | SprigRig-main-main/SprigRig-main-main/Sprigrig_Hub_firmware-main/Core/Src/atlas_ezo.c:398-418 | the slope query succeeds exactly when the reply has at least three commas |
| AtlasEzo.SlopeRoundTrip | SprigRig-main-main/SprigRig-main-main/Sprigrig_Hub_firmware-main/Core/Src/atlas_ezo.c:398-418 | acid slope, base slope and zero offset written with two decimals read back as the same three values |
| AtlasEzo.StatusReply | SprigRig-main-main/SprigRig-main-main/Sprigrig_Hub_firmware-main/Core/Src/atlas_ezo.c:205-222 | the restart reason is reported exactly when the reply has a comma, the voltage exactly when it has a second one |
| AtlasEzo.StatusRoundTrip | SprigRig-main-main/SprigRig-main-main/Sprigrig_Hub_firmware-main/Core/Src/atlas_ezo.c:205-222 | "?STATUS,reason,volts" gives back the reason character and the voltage in thousandths |
| AtlasEzo.Bounded | SprigRig-main-main/SprigRig-main-main/Sprigrig_Hub_firmware-main/Core/Src/atlas_ezo.c:197-198 | the info copy is the longest prefix of the reply shorter than the buffer, and the whole reply when it fits |
| AtlasEzo.CommandsFit | SprigRig-main-main/SprigRig-main-main/Sprigrig_Hub_firmware-main/Core/Src/atlas_ezo.c:319-323 | every formatted command fits its 16-byte (20 for EC calibration) buffer, so no `snprintf` truncates |
| AtlasEzo.TemperatureArgAgrees | SprigRig-main-main/SprigRig-main-main/Sprigrig_Hub_firmware-main/Core/Src/atlas_ezo.c:319-323 | as written, the temperature argument is correct for t >= 0 and for t <= -1.00 degrees |
| AtlasEzo.TemperatureArgLosesSign | SprigRig-main-main/SprigRig-main-main/Sprigrig_Hub_firmware-main/Core/Src/atlas_ezo.c:319-323 | as written, a temperature strictly between -1.00 and 0 is formatted without its minus sign, so the circuit reads it back as the opposite value |
| AtlasEzo.Answers | SprigRig-main-main/SprigRig-main-main/Sprigrig_Hub_firmware-main/Core/Src/atlas_ezo.c:521-536 | records which of the four output switches were acknowledged and answered |
| AtlasEzo.Made | SprigRig-main-main/SprigRig-main-main/Sprigrig_Hub_firmware-main/Core/Src/atlas_ezo.c:521-536 | the exchanges made are those up to and including the first that failed |
| AtlasEzo.ReplyText | SprigRig-main-main/SprigRig-main-main/Sprigrig_Hub_firmware-main/Core/Src/atlas_ezo.c:153-174 | the response text is at most 31 characters and contains no NUL |
| AtlasEzo.Ezo.Text | SprigRig-main-main/SprigRig-main-main/Sprigrig_Hub_firmware-main/Core/Src/atlas_ezo.c:162-169 | the stored response is a C string of the recorded length |
| AtlasEzo.Ezo.Init | SprigRig-main-main/SprigRig-main-main/Sprigrig_Hub_firmware-main/Core/Src/atlas_ezo.c:123-130 | the handle starts with an empty response, code 0, and the given address and sensor type |
| AtlasEzo.Ezo.Start | SprigRig-main-main/SprigRig-main-main/Sprigrig_Hub_firmware-main/Core/Src/atlas_ezo.c:135-138 | the rest of `AtlasEZO_Init`: the "I" exchange, succeeding when it is answered |
| AtlasEzo.Ezo.SendCommand | SprigRig-main-main/SprigRig-main-main/Sprigrig_Hub_firmware-main/Core/Src/atlas_ezo.c:144-148 | sends the command text and reports the acknowledgement |
| AtlasEzo.Ezo.ReadResponse | SprigRig-main-main/SprigRig-main-main/Sprigrig_Hub_firmware-main/Core/Src/atlas_ezo.c:153-174 | the response code is stored whenever the read succeeds; on code 1 (success) the text after it is copied up to its NUL (at most 31 characters) and the read succeeds; otherwise the text is unchanged |
| AtlasEzo.Ezo.SendAndWait | SprigRig-main-main/SprigRig-main-main/Sprigrig_Hub_firmware-main/Core/Src/atlas_ezo.c:179-187 | sends the command, then reads the response only when the command was acknowledged |
| AtlasEzo.Ezo.ParseResponse | SprigRig-main-main/SprigRig-main-main/Sprigrig_Hub_firmware-main/Core/Src/atlas_ezo.c:63-118 | succeeds exactly on a success code; then the reading is the scaled first field and, for EC, the extras are updated from the fields present |
| AtlasEzo.Ezo.ParseEcExtras | SprigRig-main-main/SprigRig-main-main/Sprigrig_Hub_firmware-main/Core/Src/atlas_ezo.c:79-97 | TDS (/1000), salinity (/10) and specific gravity are taken from the second, third and fourth fields when present |
| AtlasEzo.Ezo.ReadValue | SprigRig-main-main/SprigRig-main-main/Sprigrig_Hub_firmware-main/Core/Src/atlas_ezo.c:298-314 | sends "R", reads the response and parses it; the reading changes only when all three succeed |
| AtlasEzo.Ezo.GetInfo | SprigRig-main-main/SprigRig-main-main/Sprigrig_Hub_firmware-main/Core/Src/atlas_ezo.c:192-200 | the "I" exchange; on success the info is the bounded copy of the reply |
| AtlasEzo.Ezo.SetI2CAddress | SprigRig-main-main/SprigRig-main-main/Sprigrig_Hub_firmware-main/Core/Src/atlas_ezo.c:227-237 | sends "I2C,n" and adopts the new address only when the exchange succeeds |
| AtlasEzo.Ezo.SetTemperature | SprigRig-main-main/SprigRig-main-main/Sprigrig_Hub_firmware-main/Core/Src/atlas_ezo.c:319-323 | corrected: sends "T," with the signed temperature in two decimals |
| AtlasEzo.Ezo.GetTemperature | SprigRig-main-main/SprigRig-main-main/Sprigrig_Hub_firmware-main/Core/Src/atlas_ezo.c:328-340 | sends "T,?" and reports the parsed compensation temperature when answered |
| AtlasEzo.Ezo.SetLed | SprigRig-main-main/SprigRig-main-main/Sprigrig_Hub_firmware-main/Core/Src/atlas_ezo.c:260-262 | sends "L,1" or "L,0" |
| AtlasEzo.Ezo.GetLed | SprigRig-main-main/SprigRig-main-main/Sprigrig_Hub_firmware-main/Core/Src/atlas_ezo.c:267-279 | sends "L,?" and reports on exactly when the character after the comma is '1' |
| AtlasEzo.Ezo.PhCalibrate | SprigRig-main-main/SprigRig-main-main/Sprigrig_Hub_firmware-main/Core/Src/atlas_ezo.c:347-369 | sends "CAL,MID/LOW/HIGH," with the pH in two decimals |
| AtlasEzo.Ezo.CalQuery | SprigRig-main-main/SprigRig-main-main/Sprigrig_Hub_firmware-main/Core/Src/atlas_ezo.c:381-393 | sends "CAL,?" and reports the point count after the comma |
| AtlasEzo.Ezo.GetSlope | SprigRig-main-main/SprigRig-main-main/Sprigrig_Hub_firmware-main/Core/Src/atlas_ezo.c:398-418 | sends "SLOPE,?"; reports success exactly when three slope fields are present, and stores the fields present even when later ones are missing |
| AtlasEzo.Ezo.SetProbeType | SprigRig-main-main/SprigRig-main-main/Sprigrig_Hub_firmware-main/Core/Src/atlas_ezo.c:439-443 | sends "K," with the probe constant in two decimals |
| AtlasEzo.Ezo.GetProbeType | SprigRig-main-main/SprigRig-main-main/Sprigrig_Hub_firmware-main/Core/Src/atlas_ezo.c:448-459 | sends "K,?" and reports the parsed constant in hundredths |
| AtlasEzo.Ezo.EcCalibrate | SprigRig-main-main/SprigRig-main-main/Sprigrig_Hub_firmware-main/Core/Src/atlas_ezo.c:471-493 | sends "CAL,", "CAL,LOW," or "CAL,HIGH," with the conductivity in decimal |
| AtlasEzo.Ezo.Sleep | SprigRig-main-main/SprigRig-main-main/Sprigrig_Hub_firmware-main/Core/Src/atlas_ezo.c:242-244 | sends "SLEEP" without waiting for a response |
| AtlasEzo.Ezo.TriggerReading | SprigRig-main-main/SprigRig-main-main/Sprigrig_Hub_firmware-main/Core/Src/atlas_ezo.c:291-293 | sends "R" without waiting for a response |
| AtlasEzo.Ezo.FactoryReset | SprigRig-main-main/SprigRig-main-main/Sprigrig_Hub_firmware-main/Core/Src/atlas_ezo.c:284-286 | the "FACTORY" exchange |
| AtlasEzo.Ezo.CalClear | SprigRig-main-main/SprigRig-main-main/Sprigrig_Hub_firmware-main/Core/Src/atlas_ezo.c:374-376 | the "CAL,CLEAR" exchange |
| AtlasEzo.Ezo.CalDry | SprigRig-main-main/SprigRig-main-main/Sprigrig_Hub_firmware-main/Core/Src/atlas_ezo.c:464-466 | the "CAL,DRY" exchange |
| AtlasEzo.Ezo.GetStatus | SprigRig-main-main/SprigRig-main-main/Sprigrig_Hub_firmware-main/Core/Src/atlas_ezo.c:205-222 | the "STATUS" exchange; on success the reason and voltage are reported when their fields are present |
| AtlasEzo.Ezo.SwitchOutput | SprigRig-main-main/SprigRig-main-main/Sprigrig_Hub_firmware-main/Core/Src/atlas_ezo.c:521-536 | one output-switch exchange |
| AtlasEzo.Ezo.SetOutput | SprigRig-main-main/SprigRig-main-main/Sprigrig_Hub_firmware-main/Core/Src/atlas_ezo.c:521-536 | sends "O,EC", "O,TDS", "O,S", "O,SG" with 1 or 0 in order, stopping after the first that fails; succeeds exactly when all four are answered |
| AtlasEzo.Ezo.PhX100 | SprigRig-main-main/SprigRig-main-main/Sprigrig_Hub_firmware-main/Core/Src/atlas_ezo.c:430-432 | the pH in hundredths is the thousandths divided by ten for in-range readings, and, for negative ones, the 16-bit wrap of the quotient truncated toward zero |
| AtlasEzo.ReadSlopes | SprigRig-main-main/SprigRig-main-main/Sprigrig_Hub_firmware-main/Core/Src/atlas_ezo.c:404-412 | the nested lookups yield the three slope fields exactly when all are present |
| AtlasEzo.NextNumber | SprigRig-main-main/SprigRig-main-main/Sprigrig_Hub_firmware-main/Core/Src/atlas_ezo.c:407-412 | finds the next comma and parses the field after it |
| ModbusHostTest.HostShiftIsStep | SprigRig-main-main/SprigRig-main-main/hardware/modbus_timing_test.py:19-20 | the host's conditional shift `(crc >> 1) ^ 0xA001 if crc & 1 else crc >> 1` is one step of the firmware's polynomial CRC |
| ModbusHostTest.ShiftInByte | SprigRig-main-main/SprigRig-main-main/hardware/modbus_timing_test.py:18-20 | xoring a byte in and shifting eight times is one byte step of the CRC |
| ModbusHostTest.HostCrc16 | SprigRig-main-main/SprigRig-main-main/hardware/modbus_timing_test.py:15-21 | the host `crc16` returns exactly the trailer the firmware appends: the CRC-16/MODBUS of the data, low byte first |
| ModbusHostTest.LittleEndian | SprigRig-main-main/SprigRig-main-main/hardware/modbus_timing_test.py:21 | `to_bytes(2, 'little')` is the firmware's trailer layout |
| ModbusHostTest.ValidateCrc | SprigRig-main-main/SprigRig-main-main/hardware/modbus_timing_test.py:35-44 | a response is accepted exactly when it has at least four bytes and its last two bytes, low first, are the CRC of the rest; this is the firmware's own frame check |
| ModbusHostTest.BuildCommandValidates | SprigRig-main-main/SprigRig-main-main/hardware/modbus_timing_test.py:24-32 | every command the builder produces passes `validate_crc`, is 8 bytes (10 for write_all), and a write_single carries the relay number and 0xFF00 or 0x0000 |
| ModbusHostTest.BuildCommandFails | SprigRig-main-main/SprigRig-main-main/hardware/modbus_timing_test.py:24-32 | building fails exactly for an unknown command type or a write_single relay outside 0..255 |
| MjpegStream.FindFrom | SprigRig-main-main/SprigRig-main-main/python/hardware/stream_server.py:30-31 | `find` returns the first position at or after the start where the two-byte marker occurs, or -1 when there is none |
| MjpegStream.FindFirst | SprigRig-main-main/SprigRig-main-main/python/hardware/stream_server.py:30-31 | a marker occurrence with none before it is what `find` returns |
| MjpegStream.SplitFrames | SprigRig-main-main/SprigRig-main-main/python/hardware/stream_server.py:29-38 | the loop yields, in order, a multipart part for each frame that the extraction specification cuts, and leaves the same remaining buffer |
| MjpegStream.FirstImageShape | SprigRig-main-main/SprigRig-main-main/python/hardware/stream_server.py:32-33 | a frame cut from the buffer starts with the start-of-image marker FF D8, ends with the end-of-image marker FF D9, and has no other end marker inside |
| MjpegStream.ExtractShape | SprigRig-main-main/SprigRig-main-main/python/hardware/stream_server.py:29-38 | every frame the loop yields is well formed, and the remaining buffer is a suffix of the input |
| MjpegStream.StrayEndBlocks | SprigRig-main-main/SprigRig-main-main/python/hardware/stream_server.py:32 | an end-of-image marker that comes before every start marker stops the loop for good: no frame is ever yielded however many bytes arrive later |

## Left out

- **Concurrency:** the UART receive interrupt and the 1 ms timer callback run concurrently with `Modbus_Poll` in the firmware. The model runs them as separate method calls, so an interrupt landing in the middle of `Poll` (e.g. a byte received while a frame is processed) is not modelled.
- **UART and GPIO:** the transmit busy-wait, the post-transmit delay in `Modbus_SendResponse` and the receive-interrupt re-arming in `Modbus_Init` are not modelled. The driver-enable pin and the transmitted bytes appear only as a ghost event trace.
- **Clocks:** `HAL_GetTick` values are parameters (`now`). All `HAL_Delay` calls are left out.
- **I2C and GPIO inputs:** the result of every I2C transfer and every GPIO read is a parameter. That means acknowledgements, received bytes and pin levels; a missing or failed read is `None` or `false`. The writes a driver makes are recorded in ghost logs, and the I2C address shift is not modelled.
- **ADC:** the analog readings are inputs to `SensorHub.Hub.Update`. The blocking conversion `SensorHub_ReadADC`, the channel mapping of `SensorHub_ReadADC_4_20mA` / `SensorHub_ReadADC_0_10V` (sensor_hub.c:138-207) and the DAC start-up are HAL calls.
- **Register access:** `SensorHub_GetRegisters` and `SensorHub_GetRegisterCount` only expose the register array. In the model the Modbus slave is given that array directly.
- **Sensor presence:** the BME280 probing at two addresses in `SensorHub_Init` is reduced to its outcome (the presence flags).
- **BME chip id and reset:** `BME280_ReadID`, `BME680_ReadID` and the reset writes are part of `Begin`. The chip id read is a parameter.
- **Bme680 compensation inputs:** `BME680_CompensatePress` and `BME680_CompensateGas` are not modelled. Their results are parameters of `Bme680.Sensor.ReadAll`. The floating-point-free formulas are long and add no property beyond what the BME280 pressure model shows.
- Bme280.PressureOf: the compensation formula is modelled, but the contract states only the divide-by-zero guard; no range for the pressure is proved.
- **BME integer widths:** the compensation formulas use unbounded integers. The 32- and 64-bit intermediate overflow of the C code, for calibration values outside the datasheet ranges, is not modelled; the final casts are (`Trunc32`, `Int16`).
- **EZO floating point:** the voltage of `AtlasEZO_GetStatus` is reported in thousandths of a volt; the source converts it to `float`. The source's `strchr(ptr + 1, ',')` on a reply without a comma dereferences a null pointer + 1, which is undefined behaviour; the model reports no voltage then.
- **EZO wake:** `AtlasEZO_Wake` is a one-byte dummy read whose result is ignored and which changes no handle state. It is left out of `Init`.
- **Sensor-type enum:** the `default` branch of the sensor-type switch in `AtlasEZO_ParseResponse` cannot be reached in the model, because the sensor type is a five-value datatype.
- **int32 overflow in parsing:** in `AtlasEZO_ParseFloat_x1000` and `atoi` (more than nine digits) overflow is not modelled. The parsed value is an unbounded integer, cast where the source casts.
- **Trivial getters:** these return a stored field unchanged:
  - `SCD40_GetCO2`, `SCD40_GetTemperature_x100`, `SCD40_GetHumidity_x100`;
  - `BME280_GetPressure_Pa`, `BME680_GetPressure_Pa`, `BME680_GetGasResistance`, `BME680_GetTemperature_x100`;
  - `AtlasEZO_pH_GetValue_x1000` and the EC getters (atlas_ezo.c:541-564).
  
  `Bme280.Sensor.GetTemperatureX100` and `Bme680.Sensor.IsGasValid` are defined without a contract of their own.
- AtlasEzo.Ezo.SetOutput: the contract states the commands sent and the result, but not the response text left by the last exchange.
- AtlasEzo.Ezo.PhX100: the value is pinned only for readings in 0..655359 thousandths and for negative ones. Larger readings wrap like the source's cast, but that is not stated.
- AtlasEzo.Ezo.GetSlope: for a reply with fewer than three fields, the outputs that were written are stated through `SlopeOutputs`, not field by field.
- **Stream server:** the Flask routes, the health endpoint, subprocess start and cleanup, the signal handler and chunked reading from the camera process (stream_server.py:10-27, 40-60) are I/O. The model covers the frame-splitting loop on the accumulated buffer.
- **Timing test:** `test_command` and `main` of the timing test (modbus_timing_test.py:47 onward) drive a serial port and GPIO pins and print results. The model covers the CRC, command building and response validation.
- **Broadcast replies:** the firmware answers broadcast (address 0) read and write requests, replying with its own address. The Modbus convention, and the comment beside the address check, say broadcasts are never answered. The model follows the code; `ModbusSlave.BroadcastIsAnswered` states the behaviour. It is not listed as a finding. The code accepts broadcast frames on purpose (modbus.c:148-151) and suppresses only the exception reply (modbus.c:176). So the source does not make clear whether the read and write replies to a broadcast are unintended.

## Findings

| source | as written | input that shows it | evidently intended | confidence | as-written member | corrected member |
|---|---|---|---|---|---|---|
| Sprigrig_Hub_firmware-main/Sprigrig_Hub_firmware-main/Core/Src/bh1750.c:185-187 | `GetLux` casts the whole-lux value to `uint16_t`, which wraps above 65535 lx | MTreg 31, continuous H-resolution, raw count 0xFFFF: the light is 121556 lx and `GetLux` returns 56020 | saturate at 65535 so that brighter light never reads darker | not executed; the arithmetic is proved | Bh1750.GetLuxWraps | Bh1750.SaturatingMonotone |
| SprigRig-main-main/SprigRig-main-main/Sprigrig_Hub_firmware-main/Core/Src/atlas_ezo.c:319-323 | `"T,%d.%02d"` with `t / 100` and `abs(t % 100)` drops the sign when the integer part is 0 | t = -50 (-0.50 C) sends "T,0.50", which the circuit reads as +0.50 C | a temperature between -1.00 and 0 keeps its minus sign ("T,-0.50") | not executed; the formatting is proved | AtlasEzo.TemperatureArgLosesSign | AtlasEzo.TemperatureRoundTrip |
