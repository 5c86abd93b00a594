# Race-logger firmware core in Dafny

This project models four pieces of a motorsport data logger's firmware and proves what they do.

- **GeoCircle** (`geo_circle.dfy`): the circular geofence and the sticky boundary-crossing detector built on it. The detector keeps a three-sample history, newest first, plus a "breached" and a "crossed" flag. The planar distance and the point validity test are parameters, so every property holds for any choice of them. `Boundary` is the record updated in place; it is proved to follow the value-level step function `Step`.
- **LapStats** (`lap_stats.dfy`): the lap and sector timing session.
  - The file-static variables become the fields of class `Session`.
  - Each method is proved to follow a pure step function on `SessionState`: `StartFinish`, `Sector`, `LocationUpdated` or `Update`.
  - What the session asks of other modules arrives in a `Tick`: launch control, the clock, GPS quality, track detection and the configuration.
  - The calls it makes to other modules leave as a list of `Effect`s.
  - Millisecond timestamps are 32-bit values. Subtracting them wraps around explicitly.
- **SkyTraq** (`skytraq.dfy`): the binary framing used to talk to the GPS module. A frame is 0xA0 0xA1, a two-byte length, the payload, an XOR checksum, then 0x0D 0x0A.
  - `GpsMessage` is the one shared message buffer. Its payload union is a 256-byte array, and every named field is a byte at a fixed offset, so writing through one view of the union shows up in the others.
  - Bytes sent come back as a sequence. Bytes received are read from a sequence, and running out of input is a timeout.
- **FileWriter** (`file_writer.dfy`):
  - the log file's line buffer with its flush when full;
  - the CSV layout of the header and data lines;
  - the `rc_<n>.log` name search.
  
  Handing the buffer to the file system is modelled as appending its C string to a ghost `written` sequence. The number formatters and `decodeSampleRate` are parameters.

`wrappers.dfy` holds the `Option` type.

The code behaves in several places differently from what a lap timer of this kind would be expected to do. The model follows the code, and these lemmas show each difference:

- `GeoCircle.DrivePastCentre`: a crossing needs only history slot 1 to hold a valid point, not all three slots.
- `LapStats.DwellInsideRefires`: the start/finish debounce flag is cleared on every tick without a lap. It is not a rising-edge test, so a vehicle that stays inside the finish circle gets a new lap once 10 s have passed.
- `LapStats.SectorHit`: sector detection has no rising-edge test. `prevAtTarget` is written but never read.
- `LapStats.SectorWrapComparesCurrent`: the sector wrap compares the next waypoint with the current one, not with waypoint 0.
- `LapStats.LaunchAtTimeZeroRepeats`: a launch reported at time 0 leaves the session unstarted, because the start-finish timestamp doubles as the "started" flag.
- No crossing-time interpolation is computed: the boundary records no time between two samples; see "Left out".

## Model

| member | source | states |
|---|---|---|
| GeoCircle.CreateCircle | src/gps/geoCircle.c:27-34 | the circle has exactly the given centre and radius; nothing is validated |
| GeoCircle.IsPointInCircle | src/gps/geoCircle.c:36-38 | membership is the closed disc: a point at exactly the radius is inside, one farther away is outside (planar test; a point carries no elevation, include/gps/geoCircle.h:40-48) |
| GeoCircle.IsValidCircle | src/gps/geoCircle.c:40-42 | a valid circle has a valid centre, and a radius of 0 or less is never valid |
| GeoCircle.CreateCircleValidity | src/gps/geoCircle.c:40-42 | a created circle is valid iff its centre is a valid point and its radius is positive; a radius <= 0 is never valid |
| GeoCircle.CreateBoundary | src/gps/geoCircle.c:44-51 | a fresh boundary holds the given circle, both flags clear and three zeroed samples (include/gps/geoCircle.h:55-67) |
| GeoCircle.Step | src/gps/geoCircle.c:57-83 | one sample: the reply equals the new crossed flag, breached never clears, a crossed boundary is returned unchanged, the circle is kept |
| GeoCircle.StepInvalidCircleIsInert | src/gps/geoCircle.c:61-62 | around an invalid circle a sample returns false and changes nothing |
| GeoCircle.StepIgnoresOutsideBeforeBreach | src/gps/geoCircle.c:64-65 | before the breach a sample outside the circle returns false and changes nothing |
| GeoCircle.StepRecords | src/gps/geoCircle.c:67-82 | a recorded sample shifts the history newest-first, latches breached, and crosses iff slot 1 is valid and dist(slot 1) < dist(new sample) |
| GeoCircle.Feed | src/gps/geoCircle.c:57-83 | over any stream of samples the circle is kept and neither flag ever clears |
| GeoCircle.ReplyIsCrossedFlag | include/gps/geoCircle.h:69-76 | every reply is the crossed flag of the boundary right after that call |
| GeoCircle.FeedCrossedIsFixed | src/gps/geoCircle.c:58-59 | a crossed boundary never changes again and answers true to everything |
| GeoCircle.RepliesAreSticky | src/gps/geoCircle.c:58-59 | once a call returns true, every later call returns true |
| GeoCircle.InvalidCircleNeverCrosses | src/gps/geoCircle.c:61-62 | a boundary around an invalid circle never changes and never reports a crossing, whatever it is fed |
| GeoCircle.DrivePastCentre | src/gps/geoCircle.c:71-82 | distances 15, 5, 20 give replies false, false, true; the crossing is declared while slot 2 still holds the zeroed sample |
| GeoCircle.Boundary.constructor | src/gps/geoCircle.c:44-51 | the in-place record starts as CreateBoundary of the circle |
| GeoCircle.Boundary.AddSample | src/gps/geoCircle.c:57-83 | shifting the array in place and latching the flags gives exactly Step's new boundary and reply |
| LapStats.Wrap32 | src/lap_stats/lap_stats.c:116 | the tiny_millis_t result is the one 32-bit value congruent to the difference, and equals it when in range |
| LapStats.Elapsed | src/lap_stats/lap_stats.c:116 | the tiny_millis_t difference of two readings is congruent to the true difference modulo 2^32, and equal to it when it fits in 32 bits |
| LapStats.ElapsedSurvivesWrap | src/lap_stats/lap_stats.c:115-116 | the elapsed time between two clock readings is correct across a wrap of the 32-bit clock |
| LapStats.StartFinishEnabled | src/lap_stats/lap_stats.c:201-203 | a track whose start point or finish point is invalid has start/finish detection disabled |
| LapStats.SectorTrackingEnabled | src/lap_stats/lap_stats.c:205-212 | sector tracking is enabled only together with start/finish detection, and never when sector sampling is disabled |
| LapStats.SectorTrackingNeedsStartFinish | src/lap_stats/lap_stats.c:201-212 | sector tracking is enabled only together with start/finish tracking, and never without a valid waypoint 0 |
| LapStats.Initial | src/lap_stats/lap_stats.c:184-199 | init zeroes the counters, times, timestamps and flags, sets both sector indices to -1, forgets the track, and leaves the session unstarted |
| LapStats.StartFinish | src/lap_stats/lap_stats.c:98-145 | the lap count grows by one exactly on a detection after the start; the sector moves only to 0 on a start; the configuration and sector fields are untouched |
| LapStats.StartFinishBeforeStart | src/lap_stats/lap_stats.c:101-113 | before the start, detection is launch control's answer; a launch seeds both timestamps with the launch time and sets sector 0 without counting a lap |
| LapStats.LapDetectedIff | src/lap_stats/lap_stats.c:115-134 | after the start, a lap is detected iff the point is in the finish circle, prevAtStartFinish is clear and more than 10000 ms have passed |
| LapStats.NoLapKeepsCounters | src/lap_stats/lap_stats.c:128-134 | a tick without a lap records atStartFinish, clears prevAtStartFinish and changes nothing else |
| LapStats.LapUpdatesCounters | src/lap_stats/lap_stats.c:139-144 | a detected lap adds one lap, records the elapsed time, restarts the clock and sets prevAtStartFinish |
| LapStats.NoTwoLapsInARow | src/lap_stats/lap_stats.c:130-142 | two consecutive calls after the start never both detect a lap |
| LapStats.DwellInsideRefires | src/lap_stats/lap_stats.c:130-132 | staying inside the finish circle: the first tick after a lap clears the flag and the next one detects a lap once 10 s have passed |
| LapStats.LaunchAtTimeZeroRepeats | src/lap_stats/lap_stats.c:94-109 | a launch at time 0 leaves the session unstarted and the next launch report is a new start |
| LapStats.Sector | src/lap_stats/lap_stats.c:147-178 | sector processing never touches the lap fields or configuration; the sector stays, advances by one, or wraps to 0 |
| LapStats.SectorOutsideTarget | src/lap_stats/lap_stats.c:149-159 | before the start nothing changes; outside the current sector circle only atTarget and prevAtTarget are cleared |
| LapStats.SectorHit | src/lap_stats/lap_stats.c:164-177 | a hit records the split from the last sector timestamp, the new timestamp and the old sector, and wraps to 0 exactly when the next waypoint equals the current one |
| LapStats.SectorWrapComparesCurrent | src/lap_stats/lap_stats.c:175-177 | with waypoint 3 equal to waypoint 0 but not to waypoint 2, a hit on sector 2 moves to sector 3 |
| LapStats.Configure | src/lap_stats/lap_stats.c:229-237 | configuration happens once: an unconfigured session takes the auto-detected track when auto-detection is on and the configured track otherwise, sets both enabled flags from that track, and sets up launch control; a configured session is left as it is |
| LapStats.LocationUpdated | src/lap_stats/lap_stats.c:214-268 | an update keeps the session consistent and grows the lap count by at most one |
| LapStats.StartFinishDisabledStops | src/lap_stats/lap_stats.c:239-240 | with start/finish detection disabled, an update ends once the session is configured |
| LapStats.SectorsOnlyWhenEnabled | src/lap_stats/lap_stats.c:242-264 | the new state is processStartFinish's result, passed through processSector only when sector tracking is enabled |
| LapStats.Update | src/lap_stats/lap_stats.c:270-274 | cold GPS data changes nothing and calls nobody |
| LapStats.UnusableFixIgnored | src/lap_stats/lap_stats.c:218-221 | a fix with no usable signal changes nothing and calls nobody |
| LapStats.FirstStartSeedsFromStartPoint | src/lap_stats/lap_stats.c:244-257 | the first start resets the distance to the straight line from the track's start point and reports the start there at the launch time |
| LapStats.LaterLapReportsLiveSample | src/lap_stats/lap_stats.c:244-260 | a completed lap reports the live sample and its time and counts one more lap |
| LapStats.LapCountBounded | src/lap_stats/lap_stats.c:139 | over any stream of updates the lap count never falls and grows by at most one per update |
| LapStats.Session.constructor | src/lap_stats/lap_stats.c:25-43 | the session starts from zeroed static storage |
| LapStats.Session.Init | src/lap_stats/lap_stats.c:184-199 | the new state is Initial of the old one |
| LapStats.Session.ForgetTrack | src/lap_stats/lap_stats.c:185-188 | clears the configured flag, the track and both last times; nothing else changes |
| LapStats.Session.ClearStartFinish | src/lap_stats/lap_stats.c:189-191 | clears the start/finish flags and timestamp; nothing else changes |
| LapStats.Session.ClearSectorDetection | src/lap_stats/lap_stats.c:192-194 | clears the sector flags and timestamp; nothing else changes |
| LapStats.Session.ResetCounters | src/lap_stats/lap_stats.c:195-197 | lap count 0 and both sector indices -1; nothing else changes |
| LapStats.Session.ResetLapCount | src/lap_stats/lap_stats.c:51-53 | only the lap count changes, to 0 |
| LapStats.Session.ConfigChanged | src/lap_stats/lap_stats.c:180-182 | only the configured flag changes, to false |
| LapStats.Session.IsStartCrossedYet | src/lap_stats/lap_stats.c:94-96 | true iff the start-finish timestamp is nonzero |
| LapStats.Session.LapCount | src/lap_stats/lap_stats.c:55-57 | getLapCount returns the session's lap count |
| LapStats.Session.CurrentSector | src/lap_stats/lap_stats.c:59-61 | getSector returns the session's current sector |
| LapStats.Session.LastSector | src/lap_stats/lap_stats.c:63-65 | getLastSector returns the session's last sector |
| LapStats.Session.LastLapTime | src/lap_stats/lap_stats.c:67-69 | getLastLapTime returns the session's last lap time |
| LapStats.Session.LastSectorTime | src/lap_stats/lap_stats.c:75-77 | getLastSectorTime returns the session's last sector time |
| LapStats.Session.AtStartFinish | src/lap_stats/lap_stats.c:83-85 | getAtStartFinish returns whether the last point was in the finish circle |
| LapStats.Session.AtSector | src/lap_stats/lap_stats.c:87-89 | getAtSector returns whether the last point was in the current sector circle |
| LapStats.Session.ProcessStartFinish | src/lap_stats/lap_stats.c:98-145 | the in-place update and its result are StartFinish's |
| LapStats.Session.RecordLaunch | src/lap_stats/lap_stats.c:105-108 | both timestamps take the launch time, prevAtStartFinish is set and the sector is 0; nothing else changes |
| LapStats.Session.RecordLap | src/lap_stats/lap_stats.c:139-142 | one more lap, its time, the new lap's start timestamp and prevAtStartFinish; nothing else changes |
| LapStats.Session.ProcessSector | src/lap_stats/lap_stats.c:147-178 | the in-place update is Sector's |
| LapStats.Session.RecordSectorBoundary | src/lap_stats/lap_stats.c:168-177 | the split, the timestamp, the last sector and the next or wrapped sector index; nothing else changes |
| LapStats.Session.OnLocationUpdated | src/lap_stats/lap_stats.c:214-268 | the in-place update and the calls made are LocationUpdated's |
| LapStats.Session.ProcessUpdate | src/lap_stats/lap_stats.c:270-274 | the in-place update and the calls made are Update's |
| SkyTraq.ChecksumCancels | stm32_base/hal/gps_skytraq/gps_device_skytraq.c:144-156 | a payload followed by its XOR checksum XORs to zero |
| SkyTraq.ChecksumReadsOnlyFrame | stm32_base/hal/gps_skytraq/gps_device_skytraq.c:147-153 | the checksum depends only on the first payloadLength bytes |
| SkyTraq.CalculateChecksum | stm32_base/hal/gps_skytraq/gps_device_skytraq.c:144-156 | the loop computes the XOR of payload[0..payloadLength) when the length is at most 256, and 0 for a longer length or a null message |
| SkyTraq.FrameAsWritten | stm32_base/hal/gps_skytraq/gps_device_skytraq.c:158-175 | payloadLength + 7 bytes: the marker, a high length byte that is always 0, the low length byte, the payload, the stored checksum, 0x0D 0x0A |
| SkyTraq.FrameFixed | stm32_base/hal/gps_skytraq/gps_device_skytraq.c:162-164 | the two length bytes encode the payload length |
| SkyTraq.LengthBytes | stm32_base/hal/gps_skytraq/gps_device_skytraq.c:194 | high byte * 256 + low byte gives back every length up to 256 |
| SkyTraq.FramesAgreeBelow256 | stm32_base/hal/gps_skytraq/gps_device_skytraq.c:163-164 | for lengths below 256 the frame as written is the intended one |
| SkyTraq.GpsMessage.Tx | stm32_base/hal/gps_skytraq/gps_device_skytraq.c:158-175 | the bytes put on the serial port are FrameAsWritten of the buffer |
| SkyTraq.Fill | stm32_base/hal/gps_skytraq/gps_device_skytraq.c:196-206 | the length is stored; the first `len` bytes are copied in, or on a timeout the bytes that arrived are copied to the front and the rest of the first `len` bytes is kept; the bytes past `len` and the checksum are kept |
| SkyTraq.Receive | stm32_base/hal/gps_skytraq/gps_device_skytraq.c:177-230 | the parser ends in success or timeout, never reads more than it was given, and a timeout has consumed all input |
| SkyTraq.SuccessMeansCheckedFrame | stm32_base/hal/gps_skytraq/gps_device_skytraq.c:186-221 | success only after 0xA0 0xA1 and two length bytes; a declared length of at most 256 is the stored length and that many bytes, the stored payload, follow the header; then come the stored message's checksum, 0x0D and 0x0A, and the stored id is the expected one |
| SkyTraq.OversizeLengthKeepsMessage | stm32_base/hal/gps_skytraq/gps_device_skytraq.c:194-211 | a declared length over 256 stores nothing, reads no payload and goes straight to the checksum byte |
| SkyTraq.StrayByteHidesMarker | stm32_base/hal/gps_skytraq/gps_device_skytraq.c:184-186 | the marker is looked for two bytes at a time, so one stray byte in front hides it |
| SkyTraq.RoundTrip | stm32_base/hal/gps_skytraq/gps_device_skytraq.c:158-230 | parsing what tx emits for a 1..255-byte message with its own checksum gives success for its id, its length and payload, and consumes every byte |
| SkyTraq.RoundTripFixed | stm32_base/hal/gps_skytraq/gps_device_skytraq.c:158-230 | the same round trip for the corrected frame, now also for a 256-byte payload |
| SkyTraq.ReceiveWholeFrame | stm32_base/hal/gps_skytraq/gps_device_skytraq.c:186-206 | a marker, a length of at most 256 and that many bytes store the payload and go on to the trailer |
| SkyTraq.TrailerAccepts | stm32_base/hal/gps_skytraq/gps_device_skytraq.c:207-221 | the stored message's checksum, 0x0D, 0x0A complete a success when the id is the expected one |
| SkyTraq.FullPayloadDeclaresZero | stm32_base/hal/gps_skytraq/gps_device_skytraq.c:163-164 | a 256-byte payload goes out declaring length 0, and the parser stores an empty message |
| SkyTraq.GpsMessage.ReadPayload | stm32_base/hal/gps_skytraq/gps_device_skytraq.c:196-206 | the in-place payload loop gives Fill's message, and times out iff fewer than len bytes remain |
| SkyTraq.GpsMessage.Rx | stm32_base/hal/gps_skytraq/gps_device_skytraq.c:177-230 | the in-place parser's buffer, result and unread input are Receive's |
| SkyTraq.GpsMessage.ReadFrame | stm32_base/hal/gps_skytraq/gps_device_skytraq.c:184-194 | one pass of the loop either ends with Receive's answer or resumes the search strictly further on |
| SkyTraq.GpsMessage.ReadBody | stm32_base/hal/gps_skytraq/gps_device_skytraq.c:196-211 | the payload and trailer of one frame follow AfterHeader |
| SkyTraq.GpsMessage.ReadTrailer | stm32_base/hal/gps_skytraq/gps_device_skytraq.c:207-222 | the checksum and end bytes follow Trailer |
| SkyTraq.SetByte | stm32_base/hal/gps_skytraq/gps_device_skytraq.c:115-131 | writing one field of the union changes exactly that byte of the payload |
| SkyTraq.Finish | stm32_base/hal/gps_skytraq/gps_device_skytraq.c:242-243 | the length is set and the checksum matches the result |
| SkyTraq.SetNmeaIntervals | stm32_base/hal/gps_skytraq/gps_device_skytraq.c:266-272 | bytes 1..7 hold the seven NMEA intervals; byte 0 and bytes 8.. are kept |
| SkyTraq.QuerySwVersion | stm32_base/hal/gps_skytraq/gps_device_skytraq.c:239-245 | the message is the query id and software type 0, length 2, with its checksum; the rest of the buffer is kept |
| SkyTraq.QueryPositionUpdateRate | stm32_base/hal/gps_skytraq/gps_device_skytraq.c:247-252 | the message is the query id alone, length 1, with its checksum; the rest of the buffer is kept |
| SkyTraq.ConfigureSerialPort | stm32_base/hal/gps_skytraq/gps_device_skytraq.c:254-262 | the message is id, COM port 0, the baud-rate code and SRAM-only attributes, length 4, with its checksum |
| SkyTraq.ConfigureNmea | stm32_base/hal/gps_skytraq/gps_device_skytraq.c:264-277 | as written: id, the GGA and GSA intervals, the attributes stored at offset 3 over the GSV interval, the GLL..ZDA intervals, and byte 8 as the buffer held it; length 9 with its checksum |
| SkyTraq.ConfigureNmeaFixed | stm32_base/hal/gps_skytraq/gps_device_skytraq.c:264-277 | the corrected message: id, the seven intervals and the attributes at byte 8, length 9, with its checksum |
| SkyTraq.ConfigurePositionUpdateRate | stm32_base/hal/gps_skytraq/gps_device_skytraq.c:279-286 | the message is id, the update rate and SRAM-only attributes, length 3, with its checksum |
| SkyTraq.SetFactoryDefaults | stm32_base/hal/gps_skytraq/gps_device_skytraq.c:232-237 | as written: id and type 1 are stored but the length is the buffer's old one; the checksum covers that old length |
| SkyTraq.SetFactoryDefaultsFixed | stm32_base/hal/gps_skytraq/gps_device_skytraq.c:232-237 | the corrected message: id and type 1, length 2, with its checksum |
| SkyTraq.BuildersFrameTheirMessage | stm32_base/hal/gps_skytraq/gps_device_skytraq.c:239-286 | each query and configure builder sets its id and its struct size, and the frame it emits parses successfully for that id |
| SkyTraq.ConfigureSerialPortFrame | stm32_base/hal/gps_skytraq/gps_device_skytraq.c:254-262 | the serial-port frame byte for byte, whatever the buffer held |
| SkyTraq.NmeaAttributesStale | stm32_base/hal/gps_skytraq/gps_device_skytraq.c:273 | the NMEA message as written sends whatever byte 8 held as its attributes |
| SkyTraq.NmeaFixedIsDetermined | stm32_base/hal/gps_skytraq/gps_device_skytraq.c:264-277 | the corrected NMEA frame is the same whatever the buffer held |
| SkyTraq.FactoryDefaultsKeepsStaleLength | stm32_base/hal/gps_skytraq/gps_device_skytraq.c:232-237 | the factory-defaults message keeps the old length; after a one-byte query it goes out without its type byte |
| SkyTraq.FactoryDefaultsFixedFrame | stm32_base/hal/gps_skytraq/gps_device_skytraq.c:232-237 | with its own length the factory-defaults frame is the same 9 bytes whatever the buffer held |
| SkyTraq.GpsMessage.constructor | stm32_base/hal/gps_skytraq/gps_device_skytraq.c:115-131 | a fresh message buffer whose contents are arbitrary, as the uncleared allocation leaves them |
| SkyTraq.GpsMessage.SendQuerySwVersion | stm32_base/hal/gps_skytraq/gps_device_skytraq.c:239-245 | the buffer becomes QuerySwVersion of the old one and its frame is sent |
| SkyTraq.GpsMessage.SendQueryPositionUpdateRate | stm32_base/hal/gps_skytraq/gps_device_skytraq.c:247-252 | the buffer becomes QueryPositionUpdateRate of the old one and its frame is sent |
| SkyTraq.GpsMessage.SendConfigureSerialPort | stm32_base/hal/gps_skytraq/gps_device_skytraq.c:254-262 | the buffer becomes ConfigureSerialPort of the old one and its frame is sent |
| SkyTraq.GpsMessage.SendConfigureNmea | stm32_base/hal/gps_skytraq/gps_device_skytraq.c:264-277 | the buffer becomes ConfigureNmea of the old one, the attributes written through the serial-port view |
| SkyTraq.GpsMessage.SendConfigurePositionUpdateRate | stm32_base/hal/gps_skytraq/gps_device_skytraq.c:279-286 | the buffer becomes ConfigurePositionUpdateRate of the old one and its frame is sent |
| SkyTraq.GpsMessage.SendSetFactoryDefaults | stm32_base/hal/gps_skytraq/gps_device_skytraq.c:232-237 | the buffer becomes SetFactoryDefaults of the old one, length untouched, and its frame is sent |
| SkyTraq.GetBaudRateCode | stm32_base/hal/gps_skytraq/gps_device_skytraq.c:325-331 | 921600 maps to 8, 9600 to 1, every other rate to 0 (table at lines 21-25) |
| FileWriter.CStrOfPlainText | src/logger/fileWriter.c:61 | text without a NUL is copied whole |
| FileWriter.CStr | src/logger/fileWriter.c:61 | the text `while (*data)` copies is a NUL-free prefix of the input that ends at the first NUL or at the end of the input |
| FileWriter.CStrStopsAtNul | src/logger/fileWriter.c:61 | the copy stops at the first NUL |
| FileWriter.FileBuffer.constructor | src/logger/fileWriter.c:48 | the buffer starts empty with nothing written |
| FileWriter.FileBuffer.WriteFileBuffer | src/logger/fileWriter.c:50-55 | the file gains the buffer's C string, the buffer is left empty (index 0, buffer[0] NUL), the result is the count written |
| FileWriter.FileBuffer.Append | src/logger/fileWriter.c:57-74 | nothing is lost (file text then buffered text is the old text then the C string of data), the index stays below 256 with a NUL at it, and the file grows only by whole buffers |
| FileWriter.FileBuffer.StoreChar | src/logger/fileWriter.c:62-70 | one character is stored and the index advances modulo 256, flushing a full buffer |
| FileWriter.FileBuffer.FlushFull | src/logger/fileWriter.c:64-70 | a full buffer goes to the file whole and the buffer restarts empty |
| FileWriter.FileBuffer.AppendQuotedString | src/logger/fileWriter.c:85-89 | appends the string between two double quotes |
| FileWriter.HeaderPartsLayout | src/logger/fileWriter.c:119-131 | the thirteen appends for one channel lay out the quoted label, the quoted units, min, max and rate, separated by bars |
| FileWriter.FileBuffer.AppendHeaderChannel | src/logger/fileWriter.c:119-131 | one pass of the header loop appends the separator and the channel's header field |
| FileWriter.FileBuffer.AppendAll | src/logger/fileWriter.c:123-131 | a run of appends adds the concatenation of their C strings |
| FileWriter.FileBuffer.AppendHeaderFields | src/logger/fileWriter.c:115-132 | the header loop appends every channel's field, comma separated |
| FileWriter.FileBuffer.AppendHeaderStep | src/logger/fileWriter.c:118-131 | channel i's pass of the header loop extends the comma-joined text by exactly one field |
| FileWriter.FileBuffer.WriteHeaders | src/logger/fileWriter.c:115-136 | the file gains the buffered text and the header line, and the buffer ends empty |
| FileWriter.FileBuffer.EndLine | src/logger/fileWriter.c:134-135 | the newline is appended and the whole buffer flushed; the result is the length of that last buffer |
| FileWriter.HeaderFieldColumns | src/logger/fileWriter.c:123-131 | a header field read back at its bars gives the quoted label, the quoted units and the three numbers |
| FileWriter.FileBuffer.AppendRowChannel | src/logger/fileWriter.c:147-174 | one pass of the row loop appends the separator and, for a sampled channel, its formatted value |
| FileWriter.FileBuffer.AppendRowFields | src/logger/fileWriter.c:145-175 | the row loop appends every channel's field, comma separated |
| FileWriter.FileBuffer.AppendRowStep | src/logger/fileWriter.c:146-174 | channel i's pass of the row loop extends the comma-joined text by exactly one field |
| FileWriter.FileBuffer.WriteChannelSamples | src/logger/fileWriter.c:139-181 | a missing sample array gives WRITE_FAIL and writes nothing; otherwise the file gains the row line and the result is WRITE_SUCCESS |
| FileWriter.CommaJoinCommas | src/logger/fileWriter.c:145-148 | n comma-free fields joined hold n - 1 commas |
| FileWriter.RowLineCommas | src/logger/fileWriter.c:139-181 | a row of n channels holds n - 1 commas and ends with a newline |
| FileWriter.SplitCommaJoin | src/logger/fileWriter.c:145-148 | splitting the joined fields at commas gives the fields back |
| FileWriter.RowLineFields | src/logger/fileWriter.c:145-177 | a row read back has one field per channel, in order, and an empty field for every channel not sampled |
| FileWriter.StoresReachPastBuffer | src/logger/fileWriter.c:61-66 | every store is at an offset of at most 256, and offset 256 is written iff the copy fills the buffer |
| FileWriter.StoreOffsets | src/logger/fileWriter.c:57-74 | the as-written sequence of offsets appendFileBuffer stores to: every character, the NUL at the pointer when the buffer fills, writeFileBuffer's NUL at 0, and the closing NUL; at least the closing store is always made |
| FileWriter.DecimalRoundTrip | src/logger/fileWriter.c:194 | reading the digits back gives the number |
| FileWriter.DecimalLength | src/logger/fileWriter.c:193-194 | a number below 10^k has at most k digits |
| FileWriter.LogNameFits | src/logger/fileWriter.c:30-31 | every name tried fits FILENAME_LEN (13) with its NUL |
| FileWriter.LogNamesDistinct | src/logger/fileWriter.c:192-196 | different indices give different names |
| FileWriter.FirstFreeLogIsFirst | src/logger/fileWriter.c:191-200 | the search settles on the first index whose name opens, and finds none iff no name below 99999 opens |
| FileWriter.OpenNextLogfile | src/logger/fileWriter.c:188-206 | returns 0 with the first name that opens, or -2 once every index up to 99998 failed (the name buffer then holding rc_99998.log); the name always fits |

## Left out

- `gc_getBoundCrossingTimeLoc` (src/gps/geoCircle.c:85-88) returns an uninitialised struct. No interpolation exists in the code, so nothing is modelled for it.
- `distPythag`, `isValidPoint` and the float arithmetic behind them are parameters (`GeoCircle.Geometry`); float rounding is not modelled.
- LapStats.DegreesToMeters: computed over reals; the float product and its rounding are not modelled.
- `getLastLapTimeInMinutes` and `getLastSectorTimeInMinutes` (float conversions through `tinyMillisToMinutes`) are not modelled. The other getters are plain reads of `Session` fields.
- LapStats.Session.Init: `resetPredictiveTimer` is not listed among the effects; the predictive timer is not part of this model.
- The collaborators are inputs (`Tick`) or outputs (`Effect`):
  - launch control, `getMillisSinceFirstFix`, `isGpsSignalUsable`, `isGpsDataCold`;
  - `auto_configure_track`, `getWorkingLoggerConfig`, `getSectorGeoPointAtIndex`;
  - the GPS distance and the predictive timer.
  
  Their own behaviour is not part of this model. Launch control's answer for a tick is taken after it has been given that tick's sample.
- `Tick.point` stands for both `gpsSample->point` and `getGeoPoint()`: processSector (src/lap_stats/lap_stats.c:155) reads the latter, and the model assumes the two are the same point; a GPS module that updated its current point between the two reads is not modelled.
- LapStats.StartFinish: the lap count is an unbounded integer; overflow of the C `int` after 2^31 laps is not modelled.
- `areGeoPointsEqual` is modelled as equality of points.
- SkyTraq.Receive: the two-second deadline of `rxGpsMessage` is not modelled. A read that finds no byte is a timeout, and the parser keeps looking for frames for as long as input remains.
- GPS provisioning is serial and RTOS plumbing with retries and delays: `detectGpsBaudRate`, `attemptFactoryDefaults`, `configureBaudRate`, the other `configure*` and query wrappers, and `GPS_device_provision`.
- SkyTraq.GpsMessage.Tx: requires payloadLength <= 256. Above that, `txGpsMessage` reads past the 256-byte payload array, which the model cannot represent.
- SkyTraq.GpsMessage.SendSetFactoryDefaults: requires payloadLength <= 256, for the same reason. A stale length above 256 would make the send read past the payload array.
- The file-writer task and its I/O are not modelled:
  - `fileWriterTask`, `startFileWriterTask`, `queue_logfile_record`;
  - `openLogfile`, `endLogfile`, `flushLogfile`, `openNewLogfile`;
  - FatFs mounting, the LEDs and the logging calls.
- FileWriter.FileBuffer.WriteFileBuffer: `f_puts` is modelled as always writing the whole string, and its count is that string's length. A failing file system is not modelled.
- FileWriter.OpenNextLogfile: `f_open` is a pure function of the file name. The `f_close` after each failed open and the logging calls are not modelled.
- The number formatters (`modp_itoa10`, `modp_ltoa10`, `modp_ftoa`, `modp_dtoa`) and `decodeSampleRate` are parameters (`Formatters`). The fixed-size character arrays they print into are not modelled. The file name search uses its own `DecimalDigits` for the non-negative index.
- FileWriter.HeaderField: the precision is passed on as read. The narrowing to `uint8_t` in `writeHeaders` is not modelled.
- The `_Noarg` sample kinds print exactly as their plain twins, so one `SampleValue` constructor stands for both. An unexpected kind prints nothing (`Unexpected`).
- FileWriter.FileBuffer.WriteHeaders: the result is stated only as less than FILE_BUFFER_SIZE. It is the length of the last buffer handed to `f_puts`, and the firmware ignores it.

## Findings

| source | as written | input that shows it | evidently intended | confidence | as-written member | corrected member |
|---|---|---|---|---|---|---|
| src/logger/fileWriter.c:66 | when the index reaches FILE_BUFFER_SIZE the terminator is stored at `buffer + 256`, one past `char buffer[256]` | a buffer holding 255 characters, then `appendFileBuffer("x")`: stores go to offsets 255, 256, 0, 0 | the buffer holds its terminator in bounds (an array of FILE_BUFFER_SIZE + 1 characters, or a flush one character earlier) | not executed | FileWriter.StoresReachPastBuffer, FileWriter.FullBufferTerminatorOverruns | FileWriter.FileBuffer.Append (its buffer has 257 characters, and every store is proved in bounds) |
| stm32_base/hal/gps_skytraq/gps_device_skytraq.c:163-164 | the high length byte is `(uint8_t)payloadLength >> 8`, so it is always 0 | a 256-byte payload: the header declares length 0, and the parser takes the first payload byte as the checksum | `(uint8_t)(payloadLength >> 8)`, so the header encodes any length up to 256 | not executed | SkyTraq.FullPayloadDeclaresZero | SkyTraq.RoundTripFixed |
| stm32_base/hal/gps_skytraq/gps_device_skytraq.c:273 | the NMEA attributes are stored through the `configureSerialPort` view, at offset 3 (the GSV interval), which was already set | a buffer whose byte 8 is 1 (left over from an earlier message): the NMEA message goes out asking for SRAM and flash | `configureNmeaMessage.attributes`, byte 8, set to ATTRIBUTE_UPDATE_TO_SRAM | not executed | SkyTraq.NmeaAttributesStale | SkyTraq.NmeaFixedIsDetermined |
| stm32_base/hal/gps_skytraq/gps_device_skytraq.c:232-237 | `sendSetFactoryDefaults` never sets `payloadLength` and sends whatever length the buffer held | after a position-rate query (length 1) the frame is A0 A1 00 01 04 04 0D 0A; the type byte is dropped | `payloadLength = sizeof(SetFactoryDefaults)`, as in every other builder | not executed | SkyTraq.FactoryDefaultsKeepsStaleLength | SkyTraq.FactoryDefaultsFixedFrame |
