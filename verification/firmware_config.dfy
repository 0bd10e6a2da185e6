/** The firmware's compile-time configuration: pins, calibration, thresholds, hysteresis. */
module FirmwareConfig {
  const FAN_PIN: int := 26
  const HEATER_PIN: int := 27
  const HUMIDIFIER_PIN: int := 14

  /** Raw ADC value of the moisture probe in air (dry) and in water (wet). */
  const MOISTURE_AIR_VALUE: int := 2000
  const MOISTURE_WATER_VALUE: int := 900

  const TEMP_MIN: real := 22.0
  const TEMP_MAX: real := 26.0
  const MOISTURE_MIN: int := 60
  const MOISTURE_MAX: int := 70
  const PH_MIN: real := 6.5
  const PH_MAX: real := 7.0

  const TEMP_HYSTERESIS: real := 0.5
  const MOISTURE_HYSTERESIS: int := 3
  const PH_HYSTERESIS: real := 0.2

  /** Capacity of the data logger's ring buffer. */
  const MAX_DATA_POINTS: int := 1000
}
