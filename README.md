# Analog clock face: angular mapping and frame

This project models the core of a small Swing demo that paints an analog
clock. Once a second the panel repaints; each repaint reads the local time
and turns the reading `(hour, minute, second)` into three hand angles, in
degrees clockwise from 12 o'clock:

- second hand: `6·s`;
- minute hand: `6·m + second/60`;
- hour hand: `30·(h % 12) + minute/12`.

It then paints, in this order, the dial circle, the hour, minute and second
hands from the panel's centre, and a small dot over the centre.

The model has three modules:

- `TimeSample` (`time_sample.dfy`): the reading as a value (`Time`), the
  ranges a local-time reading lies in, Java's truncating `hour % 12`
  (`DialHour`), and the readings one second later (`Advance`) and after `n`
  firings of the one-second timer (`AfterTicks`).
- `HandAngles` (`hand_angles.dfy`): the three angles as exact reals, an
  inverse that reads the time back from the hands (`ReadClock`), and the
  properties of the mapping: range, sector bounds, monotonicity, 12-hour
  symmetry, continuity at the minute and hour boundaries, the step made
  from one second to the next, and the hands after `n` repaints.
- `ClockFace` (`clock_face.dfy`): one repaint as a list of drawing
  instructions (`Frame`). Each hand is a descriptor: angle, length, stroke
  width and colour. Its tip stays symbolic. `ReadFrame` reads the time back
  from a frame.

The clock read is a parameter: every function takes the reading `t`. Angles
are exact `real`s rather than `double`s.

Two consequences of the code worth noting:

- At 11:59:59 the hour angle is exactly `330 + 359.9/12 = 43199/120 ≈
  359.9917°` (`HandAngles.ReferenceReadings`).
- `LocalTime.now()` has no failure path, so every frame draws its hands; the
  model has no error case for the clock read.

## Model

| member | source | states |
|---|---|---|
| `TimeSample.DialHour` | ProyectoGraphics/src/Reloj/Relojchulo.java:91 | Java's `hour % 12` truncates toward zero. The result is in [0, 12) for a non-negative hour, in (−12, 0] for a negative one, and differs from the hour by a multiple of 12. |
| `TimeSample.Advance` | ProyectoGraphics/src/Reloj/Relojchulo.java:57-58 | The reading sampled one second later is again a valid reading. |
| `TimeSample.AdvanceCountsSecond` | ProyectoGraphics/src/Reloj/Relojchulo.java:57-58 | One second later is one more second of the day, wrapping to 0 after 23:59:59. |
| `TimeSample.AfterTicks` | ProyectoGraphics/src/Reloj/Relojchulo.java:57-58 | The reading after `n` on-time firings of the one-second timer is a valid reading. |
| `TimeSample.TicksCountSeconds` | ProyectoGraphics/src/Reloj/Relojchulo.java:57-58 | After `n` ticks the reading is `n` seconds later in the day, modulo 86400. |
| `TimeSample.TicksCompose` | ProyectoGraphics/src/Reloj/Relojchulo.java:57-58 | Ticking `a` times and then `b` times gives the same reading as ticking `a + b` times. |
| `HandAngles.SecondAngle` | ProyectoGraphics/src/Reloj/Relojchulo.java:83 | The second angle lies in [0°, 360°) exactly when the second is in [0, 60). Dividing the angle by 6 and rounding down gives the second back. |
| `HandAngles.MinuteAngle` | ProyectoGraphics/src/Reloj/Relojchulo.java:87 | For a second in [0, 60), the minute hand lies in minute m's 6° sector [6m, 6m+6). For a valid reading it lies in [0°, 360°). |
| `HandAngles.HourAngle` | ProyectoGraphics/src/Reloj/Relojchulo.java:91 | For a minute and second in [0, 60), the hour hand lies in the 30° sector of hour `h % 12`. For a valid reading it lies in [0°, 360°). |
| `HandAngles.AnglesOf` | ProyectoGraphics/src/Reloj/Relojchulo.java:83-91 | For every valid reading, all three angles lie in [0°, 360°). |
| `HandAngles.ReadClockInvertsAngles` | ProyectoGraphics/src/Reloj/Relojchulo.java:83-91 | Reading the sector of each hand gives back the reading on the 12-hour dial: `(h % 12, m, s)`. |
| `HandAngles.MinuteLeadsBySecondSixtieth` | ProyectoGraphics/src/Reloj/Relojchulo.java:87 | The minute angle exceeds `6·m` by exactly the second angle divided by 60, which is less than 6°. |
| `HandAngles.HourLeadsByMinuteTwelfth` | ProyectoGraphics/src/Reloj/Relojchulo.java:91 | The hour angle exceeds `30·(h % 12)` by exactly the minute angle divided by 12, which is less than 30°. |
| `HandAngles.AnglesCountSeconds` | ProyectoGraphics/src/Reloj/Relojchulo.java:83-91 | Each angle counts seconds along its hand's turn. The hour angle is the seconds since 12 o'clock on the dial (`3600·(h % 12) + 60·m + s`) divided by 120. The minute angle is the seconds since the hour divided by 10. The second angle is 6 times the second. |
| `HandAngles.SecondAngleEndpoints` | ProyectoGraphics/src/Reloj/Relojchulo.java:83 | Second 0 gives 0° and second 59 gives 354°. |
| `HandAngles.IncreasingInSecond` | ProyectoGraphics/src/Reloj/Relojchulo.java:83-87 | For a fixed hour and minute, the second and minute angles strictly increase with the second. |
| `HandAngles.HourIncreasingInMinuteSecond` | ProyectoGraphics/src/Reloj/Relojchulo.java:85-91 | For a fixed hour, the hour angle strictly increases with (minute, second) in lexicographic order. |
| `HandAngles.HourOrderIsTimeOrder` | ProyectoGraphics/src/Reloj/Relojchulo.java:83-91 | For two valid readings, one's hour angle is smaller than the other's exactly when it lies earlier in its half of the day (second of the day modulo 43200). |
| `HandAngles.HourHandDeterminesReading` | ProyectoGraphics/src/Reloj/Relojchulo.java:83-91 | Two valid readings with the same hour angle agree on `h % 12`, minute and second. |
| `HandAngles.TwelveHourSymmetry` | ProyectoGraphics/src/Reloj/Relojchulo.java:91 | For a non-negative hour, the readings `h` and `h + 12` give the same three angles. |
| `HandAngles.AllUpExactlyAtTwelve` | ProyectoGraphics/src/Reloj/Relojchulo.java:83-91 | A valid reading has all three angles 0 exactly at 0:00:00 and at 12:00:00. |
| `HandAngles.MinuteContinuity` | ProyectoGraphics/src/Reloj/Relojchulo.java:87 | The minute formula at second 60 equals the minute angle at (m + 1, 0). |
| `HandAngles.HourContinuity` | ProyectoGraphics/src/Reloj/Relojchulo.java:91 | The hour formula at minute 60 equals the hour angle at (h + 1, 0, 0). When `h % 12 = 11` it is exactly 360° more. |
| `HandAngles.OneSecondLater` | ProyectoGraphics/src/Reloj/Relojchulo.java:83-91 | From one second's sample to the next, the second hand advances 6°, the minute hand 0.1° and the hour hand 1/120°. Each drops back to 0 where its turn completes: at second 59, at minute:second 59:59, and at 11:59:59 on the dial. |
| `HandAngles.HandsAfterTicks` | ProyectoGraphics/src/Reloj/Relojchulo.java:57-91 | After `n` one-second repaints, each hand shows the time `n` seconds later. The hour hand turns once per 43200 seconds, the minute hand once per 3600 and the second hand once per 60. |
| `HandAngles.ReferenceReadings` | ProyectoGraphics/src/Reloj/Relojchulo.java:83-91 | Worked angles: 0:00:00 → (0, 0, 0); 3:00:00 → (90, 0, 0); 6:30:00 → (195, 180, 0); 9:00:30 → (270.25, 3, 180); 12:00:15 → (0.125, 1.5, 90); 11:59:59 → (43199/120, 359.9, 354). |
| `ClockFace.Centre` | ProyectoGraphics/src/Reloj/Relojchulo.java:70-71 | The centre halves each panel side with integer division, so twice its coordinate is the side or one less. |
| `ClockFace.BoxAround` | ProyectoGraphics/src/Reloj/Relojchulo.java:77 | An oval's box is a square of side `2·rad` centred on the given point. |
| `ClockFace.Frame` | ProyectoGraphics/src/Reloj/Relojchulo.java:70-100 | A frame has five instructions. The dial circle comes first and the centre dot last. The three hands come between, all starting at the panel's centre. |
| `ClockFace.HandDescriptors` | ProyectoGraphics/src/Reloj/Relojchulo.java:94-96 | In drawing order the hands are: hour (its angle, 75 = 0.5·R, width 6, black); minute (its angle, 105 = 0.7·R, width 4, black); second (its angle, 135 = 0.9·R, width 2, red). |
| `ClockFace.HandsNestInsideDial` | ProyectoGraphics/src/Reloj/Relojchulo.java:94-96 | Each hand drawn later is strictly longer and strictly thinner than the ones before it. Every hand is shorter than the dial radius. |
| `ClockFace.DialAndDot` | ProyectoGraphics/src/Reloj/Relojchulo.java:74-100 | The dial is the circle of radius 150 about the centre, black with stroke 4. The dot is the black 10-pixel disc about the centre. |
| `ClockFace.ReferencePanel` | ProyectoGraphics/src/Reloj/Relojchulo.java:70-77 | On the 400×400 panel the centre is (200, 200), the dial box is (50, 50, 300, 300) and the dot box is (195, 195, 10, 10). |
| `ClockFace.DialFitsPanel` | ProyectoGraphics/src/Reloj/Relojchulo.java:70-77 | The dial box lies within the panel exactly when both sides are at least 300 = 2·R. |
| `ClockFace.ReadFrameInvertsFrame` | ProyectoGraphics/src/Reloj/Relojchulo.java:80-96 | Reading the hands of the frame painted for a valid reading gives back `(h % 12, m, s)`. |
| `ClockFace.SameFrameIffSameDialTime` | ProyectoGraphics/src/Reloj/Relojchulo.java:80-96 | Two valid readings paint the same frame exactly when they agree on `h % 12`, minute and second. |

## Left out

- The window setup and the panel subclass (Relojchulo.java:33-61): this is user-interface plumbing with no logic.
- The one-second repaint timer (Relojchulo.java:57-58): this is event-loop timing. Only its meaning is modelled, in `OneSecondLater` and `HandsAfterTicks`: samples taken exactly one second apart. Timer jitter and late or dropped repaints are not modelled.
- `AfterTicks`, `TicksCountSeconds`, `OneSecondLater` and `HandsAfterTicks` assume the host clock is not adjusted between samples. `LocalTime.now()` (Relojchulo.java:80) reads civil time in the default zone, which jumps at daylight-saving changes and when the clock is set by hand or by NTP; across such a jump the program shows something other than the reading `n` seconds later.
- The clock read `LocalTime.now()` (Relojchulo.java:80): this reads the host clock. Every function takes the reading as a parameter instead.
- The tip coordinates in `dibujarAguja` (Relojchulo.java:115-117): the conversion to radians, `Math.cos`/`Math.sin` and the `(int)` truncation are floating-point trigonometry. A hand is kept as (angle, length) from the centre, so the tip-distance and tip-position properties are not stated.
- The graphics state calls (`setRenderingHint`, `setColor`, `setStroke`, `drawOval`, `drawLine`, `fillOval`): these belong to a foreign graphics library. Each drawing call is an instruction value that carries the colour and stroke in force when it is made. The order in which pen state is changed is not modelled.
- The numeral labels `colocarNumeros` / `agregarNumero` (Relojchulo.java:126-159): a fixed table of label positions added to the panel, with no logic.
- The rounding of `double` arithmetic (`segundo / 60`, `minuto / 12`, `radio * 0.7`): the model computes exactly in `real`.
