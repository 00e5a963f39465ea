# BME280 acquisition over I2C, modelled in Dafny

This project models the C program `c/i2c.c`. The program reads a Bosch BME280
temperature, humidity and pressure sensor over a Linux I2C character device. It
supplies the vendor driver with two register-transport callbacks, `i2c_read`
and `i2c_write`. It applies fixed oversampling and filter settings
(`calibrate_sensor`). It then loops forever (`stream_sensor_data`): each pass
forces a measurement, waits the measurement delay, reads one compensated
triple, and adds it to three running sums. Every tenth reading, the mean triple
is handed to `save_measurements`.

The model has four modules:

- `Bme280` (`bme280.dfy`): the vendor types the program passes around.
  - the `int8_t` result code as `Status`, with `Ok` and `CommFail`;
  - the oversampling and filter settings, and the settings-selector flags;
  - the data triple;
  - the device record, as a class whose `settings` field is updated in place.
- `Transport` (`transport.dfy`): `i2c_write` and `i2c_read` as methods.
  - `i2c_write` fills a fresh array: the register address, then the payload.
  - Its error code is decided by the value `write` returned, compared with the source's `(uint16_t)len` cast.
  - `i2c_read` copies the delivered bytes into the caller's array.
- `Averaging` (`averaging.dfy`): the window arithmetic as pure functions.
  - the field-wise total;
  - the mean of a ten-reading window;
  - `Means`, the means of every complete window of a stream of readings;
  - lemmas: the k-th mean covers readings 10k..10k+9, a trailing partial window adds no mean, and a mean lies between its window's extreme readings.
- `Acquisition` (`acquisition.dfy`): `calibrate_sensor`, the loop and `stream_sensor_data`.
  - `CalibrateSensor` updates `dev.settings` field by field and returns what the vendor settings call returned.
  - `MeasurementLoop` is the `while (1)` loop over a finite sequence of per-pass outcomes (`Cycle`). Like the C code, it keeps a local `count` and three running sums.
  - The loop emits an `Event` trace: mode set, delay, data read, save. It is proved equal to the reference function `Trace`.
  - Lemmas then state what that trace means:
    - its saves are `Means` of the readings before the first failure;
    - its driver calls follow the fixed per-pass pattern, with the single delay computed before the loop;
    - a save comes right after every tenth reading, and nowhere else.

The vendor calls are inputs:

- `bme280_set_sensor_settings` is a function from selector and settings to a status;
- `bme280_cal_meas_delay` is a function of the settings;
- the results of `bme280_set_sensor_mode` and `bme280_get_sensor_data`, and the data read, are the fields of each `Cycle`.

The failure check in `i2c_write` follows the code: it fails when `write` returns less than `(uint16_t)len`, not less than the buffer length `len + 1`. So a write that takes every byte but the last still reports success.

## Model

| member | source | states |
|---|---|---|
| Transport.Uint16 | c/i2c.c:45 | the `(uint16_t)` cast: the result is below 65536, equals its argument when that fits, and differs from it by a multiple of 65536 |
| Transport.I2cWrite | c/i2c.c:36-52 | the one buffer sent is the register address followed by the payload, in order, one byte longer than the payload; the status is `CommFail` exactly when `write` returned less than the truncated `len` and `Ok` otherwise, so a write one byte short of a payload below 64 KiB still succeeds |
| Transport.I2cRead | c/i2c.c:25-34 | exactly two transfers are issued, the one-byte register address and then a read of `len` bytes; the delivered bytes land at the front of the caller's buffer, the rest of it is unchanged, and the result is always `Ok` whatever either call returned |
| Acquisition.Calibrated | c/i2c.c:58-61 | the settings written are humidity 1x, pressure 16x, temperature 2x oversampling and filter coefficient 16, with the standby time untouched |
| Acquisition.CalibrationSelector | c/i2c.c:63 | the selector asks for the pressure, temperature and humidity oversampling groups and for the filter, and not for the standby time |
| Acquisition.CalibrateSensor | c/i2c.c:54-67 | the device's settings become the calibrated settings (only `settings` may change) and the result is the vendor settings call's result on the calibration selector and the new settings |
| Acquisition.Readings | c/i2c.c:99-117 | at most one reading is summed per pass |
| Acquisition.ReadingsArePrefix | c/i2c.c:102-117 | the readings summed are, in order, the data of the passes before the first failing one, each of which completed both vendor calls; the pass after them, if any, failed |
| Acquisition.InteractionShape | c/i2c.c:92-113 | the driver calls are mode, delay by the one delay computed before the loop, read, once per completed pass, then the calls of the failing pass if there is one: only the mode call when it failed, mode, delay and read when the read failed |
| Acquisition.TraceSaves | c/i2c.c:115-130 | the saves in the loop's trace are the means of the complete ten-reading windows of the readings (pending window first), so a partial window is never saved |
| Acquisition.TraceCalls | c/i2c.c:99-113 | with the saves removed, the loop's trace is exactly its driver calls, pass by pass, ending at the first failure |
| Acquisition.TracePlaced | c/i2c.c:100-124 | in the loop's trace, an event is a save exactly when it comes straight after a data read that brings the readings summed, those already in the pending window included, to a multiple of ten |
| Acquisition.TraceMeaning | c/i2c.c:99-132 | the whole trace from an empty window saves the means of the readings before the first failure, makes the loop's driver calls, and has a save right after the 10th, 20th, 30th … reading and nowhere else |
| Acquisition.MeasurementLoop | c/i2c.c:94-132 | the loop over local `count` and running sums emits exactly the reference trace, and it stops early exactly when some pass failed; its invariant keeps `count` between 0 and 9 and each sum equal to the total of that field over the readings since the last save |
| Acquisition.StreamSensorData | c/i2c.c:80-134 | the settings are calibrated; a rejected settings call returns its code with no mode set, delay, read or save; otherwise the saves are the window means of the readings before the first failure, the calls follow the per-pass pattern with the delay of the stored settings, a save comes right after the 10th, 20th, 30th … reading and nowhere else, and the stream halts exactly when a pass failed |
| Acquisition.ModeFailed | c/i2c.c:102-106 | a failed mode call is the last event, and no reading is taken from that pass on |
| Acquisition.ReadFailed | c/i2c.c:108-112 | a failed data read ends the trace after mode, delay and read, and no reading is taken from that pass on |
| Acquisition.WindowSaved | c/i2c.c:115-130 | a completed pass that fills the window adds its three calls and then the save of the window's mean, and the window restarts empty |
| Acquisition.WindowGrown | c/i2c.c:115-118 | a completed pass that does not fill the window adds its three calls and extends the window by its reading |
| Acquisition.AddToSums | c/i2c.c:115-117 | adding a reading's fields to sums holding a window's total gives the total of the window extended by it |
| Acquisition.SumsToMean | c/i2c.c:119-122 | dividing the sums of a full window by 10.0 gives that window's mean |
| Acquisition.Entry | c/i2c.c:76 | the logged line carries the temperature and humidity unchanged and the pressure converted from Pa to hPa |
| Averaging.Means | c/i2c.c:119-124 | after n readings there are n / 10 saved means |
| Averaging.MeansAt | c/i2c.c:115-130 | save k is the mean of readings 10k .. 10k+9 |
| Averaging.MeansAppend | c/i2c.c:126-129 | after a whole number of windows, what follows is averaged as its own stream, because count and sums restart at zero |
| Averaging.MeansCons | c/i2c.c:119-130 | a full window at the front gives the first mean, and the rest is averaged on its own |
| Averaging.PartialWindowIgnored | c/i2c.c:103-112 | a partial window after whole windows adds no mean |
| Averaging.WindowCompleted | c/i2c.c:119-124 | completing a window appends exactly its mean |
| Averaging.TotalAppend | c/i2c.c:115-117 | the running total of two stretches of readings is the sum of their totals |
| Averaging.TotalAtLeast | c/i2c.c:115-117 | a total of readings whose field is at least `lo` is at least the count times `lo` |
| Averaging.TotalAtMost | c/i2c.c:115-117 | a total of readings whose field is at most `hi` is at most the count times `hi` |
| Averaging.MeanBounds | c/i2c.c:120-122 | each field of a saved mean lies between the smallest and the largest value of that field in its window |
| Averaging.MeanOfConstant | c/i2c.c:120-122 | ten identical readings are saved as that reading |

## Left out

- The BME280 vendor library is not part of this model: `bme280_init`, `bme280_set_sensor_settings`, `bme280_set_sensor_mode`, `bme280_get_sensor_data`, `bme280_cal_meas_delay`, register encoding and compensation. Their results are inputs. The numeric values of the status codes and flags come from `bme280.h`, which is not part of this model. The model uses the vendor's customary values, and only their distinctness matters.
- Floating point: the sums, the division by 10.0 and `pressure * 0.01` are IEEE doubles in C and `real` here, so nothing is said about rounding.
- `save_measurements` appears only as a `Save` event and its log fields (`Entry`). The file, clock and console I/O is left out: `fopen`, `time`, `localtime`, `strftime`, `printf`, `fprintf`, `fclose` and the `%0.2lf` formatting. So is the unchecked `NULL` from `fopen`.
- The `fprintf(stderr, …)` error messages are output only and are left out.
- `usleep` in `user_delay_us` is a wait and appears only as the `Delay` event carrying its argument. `sleep(1)` at the end of each pass is a wait that the trace does not record.
- `main` is process and bus plumbing and is left out: opening `/dev/i2c-1`, the `I2C_SLAVE` `ioctl`, wiring the callbacks, `bme280_init`, `close` and the `exit(1)` paths. So is the `identifier` struct behind `intf_ptr`.
- MeasurementLoop: the `while (1)` loop is modelled over a finite sequence of per-pass outcomes. When they run out without a failure, the model stops where the real loop would go on.
- MeasurementLoop: the C `break` on a failure is a `return` from the loop method. Nothing follows the loop in `stream_sensor_data`, so the two are the same.
- StreamSensorData: after the loop breaks, the C function falls off its end without a `return`. That value is undefined, so the outcome `Halted` carries no code.
- I2cWrite: `malloc`, `free` and the leak of the buffer on the failure path are memory management and are not modelled. The buffer is a fresh Dafny array.
- I2cWrite requires a payload shorter than 2^32 - 1 bytes. At `len == UINT32_MAX`, `len + 1` wraps to 0 in `uint32_t`, and the C code then writes past its allocation.
- I2cRead: the file descriptor's behaviour is an input. `delivered` is what `read` copied in, and `writeReturn` and `readReturn` are what the two calls returned. Neither is looked at, as in the source.
- `python/i2c.py` only glues library calls together (`smbus2`, the Python `bme280` package, an LCD driver) and has no logic of its own. It is not part of this model.
