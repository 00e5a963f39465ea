/**
 * The interface of the Bosch BME280 vendor driver as the acquisition program
 * sees it: status codes, the settings enumerations, the settings-selector
 * flags, the compensated data triple and the device record.  The vendor's own
 * code (init, register encoding, compensation) is not part of this model; the
 * program only passes these values around.
 */
module Bme280 {

  /** One byte on the bus (`uint8_t`). */
  type Byte = bv8

  /** The vendor's result code (`int8_t`): zero is success, negative is an error. */
  newtype Status = x: int | -128 <= x < 128

  /** `BME280_OK` */
  const Ok: Status := 0
  /** `BME280_E_COMM_FAIL` */
  const CommFail: Status := -4

  /** The oversampling settings of one measurement channel. */
  datatype Oversampling =
    | NoOversampling
    | Oversampling1X
    | Oversampling2X
    | Oversampling4X
    | Oversampling8X
    | Oversampling16X

  /** The coefficient of the sensor's IIR noise filter. */
  datatype Filter =
    | FilterOff
    | FilterCoeff2
    | FilterCoeff4
    | FilterCoeff8
    | FilterCoeff16

  /** `struct bme280_settings`. */
  datatype Settings = Settings(
    osrP: Oversampling,
    osrT: Oversampling,
    osrH: Oversampling,
    filter: Filter,
    standbyTime: Byte)

  /** A set of settings groups for `bme280_set_sensor_settings`, one bit per group. */
  type Selector = bv8

  const OsrPressSel: Selector := 1
  const OsrTempSel: Selector := 2
  const OsrHumSel: Selector := 4
  const FilterSel: Selector := 8
  const StandbySel: Selector := 16

  /** Whether the vendor call asked with `sel` writes the settings group `group`. */
  predicate Selects(sel: Selector, group: Selector)
  {
    sel & group != 0
  }

  /** `struct bme280_data`: one compensated reading, or a triple of means (pressure in Pa). */
  datatype SensorData = SensorData(temperature: real, humidity: real, pressure: real)

  /**
   * `struct bme280_dev`, reduced to the fields a caller can observe: the chip id
   * and calibration constants filled in by the vendor's init, and the settings.
   */
  class Device {
    var chipId: Byte
    var calib: seq<Byte>
    var settings: Settings
  }
}
