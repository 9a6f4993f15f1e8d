# esp32_airzone core, modelled in Dafny

This project models the three self-contained parts of the esp32_airzone
firmware and proves properties of them:

- **DHT11/DHT22 read** (`dht_read_float_data`). `dht_decode.dfy` holds the
  pure part. It packs the 40 measured high-pulse durations into the 5-byte
  frame, MSB first, and checks the additive checksum modulo 256. It then
  converts the frame to humidity and temperature, in exact integer tenths.
  `dht_read.dfy` holds the imperative part. The data line is a stream of
  sampled levels, one per `gpio_get_level` call. There are the five bounded
  wait loops (one method, `WaitWhile`), the 5 x 8 bit loop over a zeroed `data[5]` array, and
  the write through the two output pointers.
- **SSD1306 frame buffer** (`ssd1306.dfy`). The static `gram[8][128]` buffer
  is an `array2<bv8>`. It is zeroed and the device fields are recorded by
  `ssd1306_init`, filled by `ssd1306_clear_screen`, and drawn into one page
  row by `ssd1306_display_text`.
- **Language selector** (`translations.dfy`). It holds the module-level
  `current_language`, its setter and getter, and the switch that picks the
  string table.

`esp.dfy` holds the `esp_err_t` codes the modelled functions return.

After the start pulse, `dht_read_float_data` only reads. A `Line` gives the
level of every sample, and `pos` is the index of the next sample to take. A
wait loop is `Wait(line, level, pos)`: it stops at the first sample not
equal to `level`, or it times out once its counter passes 100. The timer
difference for bit k is `measured(k)`. `Read` is the whole read as a
function: a status, and the position after the last sample it took.
`DhtRead.ReadFloatData` is proved to do exactly that.

The bytes are `bv8` while they are being assembled, because the code ORs
`1 << (7 - j)` into them. The checksum and the conversions see them as C
sees them after integer promotion: `Byte`, an int in 0..255, with `Value`
as the conversion. `b & 0x7F` is the value modulo 128 and `b & 0x80` tests
for a value of at least 128 (`DhtDecode.LowSevenBits`, `DhtDecode.TopBit`).

The frame 02 8C 01 11 9E is rejected, because the first four bytes add up
to 0xA0 (`DhtDecode.Dht22Example`).

## Model

| member | source | states |
|---|---|---|
| DhtDecode.BitMask | components/dht/dht.c:103 | the mask for bit j of a byte is `1 << (7 - j)`, most significant bit first |
| DhtDecode.PackPrefixBits | components/dht/dht.c:74-105 | after j bits, bit b of data[i] is set iff b < j and duration 8i+b is over 50 |
| DhtDecode.PackPrefixKeepsBits | components/dht/dht.c:102-104 | data[i] starts at zero and is only OR-ed into, so a set bit stays set |
| DhtDecode.PackPrefix | components/dht/dht.c:74-105 | the reference definition of byte i after its first j bits are OR-ed into a zeroed byte; its meaning, bit by bit, is stated by `DhtDecode.PackPrefixBits` |
| DhtDecode.Pack | components/dht/dht.c:74-105 | the reference definition of the frame the 40 durations make, byte i from durations 8i..8i+7; its meaning is stated by `DhtDecode.PackBits` and `DhtDecode.PackDurations` |
| DhtDecode.PackBits | components/dht/dht.c:74-105 | bit j of the finished data[i] is set iff the (8i+j)-th duration is over the threshold 50 |
| DhtDecode.PackDurations | components/dht/dht.c:74-105 | every frame is what some 40 durations pack to, so packing loses no frame |
| DhtDecode.ValueIsUnsigned | components/dht/dht.c:14 | the integer a `uint8_t` promotes to is its unsigned value |
| DhtDecode.ToByte | components/dht/dht.c:14 | every value 0..255 is the value of some byte |
| DhtDecode.LowSevenBits | components/dht/dht.c:122 | `data[2] & 0x7F` is data[2] modulo 128 |
| DhtDecode.TopBit | components/dht/dht.c:123 | `data[2] & 0x80` is non-zero exactly when data[2] is 128 or more |
| DhtDecode.Checksum | components/dht/dht.c:109 | the checksum is a byte congruent to b0+b1+b2+b3 modulo 256 |
| DhtDecode.ConvertDht11 | components/dht/dht.c:116-118 | both DHT11 readings are at most 2805 tenths; when a tenths byte is below 10, the reading splits back into its whole-unit byte and its tenths byte (the exact value 10*b0+b1 is stated by `DhtDecode.Convert`) |
| DhtDecode.Word | components/dht/dht.c:121-122 | the OR of `hi << 8` and `lo` has hi as its high byte and lo as its low byte |
| DhtDecode.ConvertDht22 | components/dht/dht.c:119-126 | DHT22 humidity has bytes b0 and b1, at most 65535; the temperature magnitude has high byte b2 & 0x7F and low byte b3; it is negative only when bit 7 of b2 is set |
| DhtDecode.Convert | components/dht/dht.c:116-126 | DHT_TYPE_DHT11 gives 10*b0+b1 and 10*b2+b3 tenths; every other type code gives humidity b0*256+b1 and a temperature magnitude of (b2 mod 128)*256+b3, negated when b2 is 128 or more |
| DhtDecode.Decode | components/dht/dht.c:109-126 | decoding fails iff the checksum differs from b4, and then with ESP_ERR_INVALID_CRC; otherwise it gives the conversion `Convert` of the frame |
| DhtDecode.DecodeEncodeDht22 | components/dht/dht.c:109-126 | every humidity 0..65535 and temperature -32767..32767 decodes back from its frame, for every type other than DHT_TYPE_DHT11 |
| DhtDecode.DecodeEncodeDht11 | components/dht/dht.c:109-118 | every DHT11 reading whose whole parts fit a byte decodes back from its frame |
| DhtDecode.CorruptChecksumRejected | components/dht/dht.c:109-113 | a frame with any wrong checksum byte yields ESP_ERR_INVALID_CRC |
| DhtDecode.Dht11Example | components/dht/dht.c:109-118 | frame 25,0,26,0,51 reads 250 and 260 tenths |
| DhtDecode.Dht22Example | components/dht/dht.c:109-126 | frame 02 8C 01 11 A0 reads 652 and 273 tenths; with 9E as the last byte it fails the checksum |
| DhtDecode.Dht22NegativeExample | components/dht/dht.c:119-126 | frame 01 F4 80 65 DA reads 500 and -101 tenths |
| DhtRead.WaitMeaning | components/dht/dht.c:41-49 | a wait times out iff the 101 samples from pos all show the awaited-away level, taking those 101; otherwise it stops at the first other sample |
| DhtRead.Wait | components/dht/dht.c:41-49 | the reference definition of one wait loop with its timeout counter; its meaning is stated by `DhtRead.WaitMeaning` |
| DhtRead.WaitWhile | components/dht/dht.c:41-49 | the polling loop with its timeout counter computes `Wait`, and times out iff the line is stuck for 101 samples |
| DhtRead.Handshake | components/dht/dht.c:40-71 | the reference definition of the three handshake waits on levels 1, 0, 1, stopping at the first timeout; its sample bounds are stated by `DhtRead.HandshakeSamples` |
| DhtRead.AwaitResponse | components/dht/dht.c:40-71 | the three handshake waits, each stopping the read on timeout |
| DhtRead.BitsFrom | components/dht/dht.c:74-97 | the reference definition of the waits of bits k..39, a low wait then a high wait per bit, stopping at the first timeout; its sample bounds are stated by `DhtRead.BitsFromSamples` |
| DhtRead.ReadBit | components/dht/dht.c:76-97 | one data bit: the low wait, then the high wait, either of which can time out |
| DhtRead.SetBitIfOne | components/dht/dht.c:102-104 | OR-ing bit j into the byte when the duration is over 50 takes the byte from its first j packed bits to its first j+1 |
| DhtRead.ReadDataBit | components/dht/dht.c:76-104 | one data bit read off the line, with bit j of the byte set iff its duration is over 50 |
| DhtRead.ReadByte | components/dht/dht.c:75-105 | the inner loop reads bits 8i..8i+7 and leaves data[i] equal to the packed byte |
| DhtRead.ReadBits | components/dht/dht.c:74-106 | the nested loops over a zeroed data[5] read all 40 bits or time out, and the buffer holds the packed frame |
| DhtRead.Receive | components/dht/dht.c:40-106 | the reference definition of the received frame: ESP_ERR_TIMEOUT if any wait times out, otherwise the packed durations; the outcome of a whole read is stated by `DhtRead.ReadOutcome` |
| DhtRead.ReadFrame | components/dht/dht.c:40-106 | the handshake, then the 40 bits, giving ESP_ERR_TIMEOUT at the first timeout |
| DhtRead.Read | components/dht/dht.c:40-129 | the reference definition of a read: its only failures are ESP_ERR_TIMEOUT and ESP_ERR_INVALID_CRC, and it stops where the handshake or the bits stop reading the line |
| DhtRead.ReadFloatData | components/dht/dht.c:12-130 | returns the status of `Read`; writes both outputs only on ESP_OK and leaves them untouched on every failure |
| DhtRead.BitsFromSamples | components/dht/dht.c:74-106 | reading bits k..39 takes at most 2*(40-k)*101 samples, and at least 2*(40-k) when no wait times out |
| DhtRead.HandshakeSamples | components/dht/dht.c:40-71 | the handshake takes between 1 and 303 samples, and at least 3 when it succeeds |
| DhtRead.ReadSamples | components/dht/dht.c:40-106 | every read, whatever the line does, takes between 1 and 8383 samples; a successful one takes at least 83 |
| DhtRead.ReadOutcome | components/dht/dht.c:40-129 | ESP_ERR_TIMEOUT iff some wait times out; ESP_ERR_INVALID_CRC iff all 40 bits arrive and the checksum is wrong; ESP_OK iff all arrive and it is right, with the converted frame |
| DhtRead.NoSensorTimesOut | components/dht/dht.c:41-49 | a line stuck high times out in the first wait after 101 samples |
| Ssd1306.Draw | components/ssd1306/ssd1306.c:77-89 | the reference definition of the drawn row, character by character (it keeps the row's length); its closed form is stated per column by `Ssd1306.DrawColumns` |
| Ssd1306.DrawColumns | components/ssd1306/ssd1306.c:78-89 | column c of a drawn row is the ink iff c is below 8*text_len and in the block of a printable character; otherwise it keeps its byte |
| Ssd1306.DrawLeavesTail | components/ssd1306/ssd1306.c:78-89 | columns at or past 8*text_len are unchanged |
| Ssd1306.DrawCharacter | components/ssd1306/ssd1306.c:79-88 | the 8 columns of a printable character become 0xFF (inverted) or 0x01; those of any other character are left as they were |
| Ssd1306.DrawExample | components/ssd1306/ssd1306.c:78-89 | on a blank row "Hi" fills every column 0..15 with the ink and leaves column 16 blank; a newline leaves every column 8..15 of its block blank even when inverted |
| Ssd1306.InitStatus | components/ssd1306/ssd1306.c:44-61 | the reference definition of init's status, that of the first command the bus rejects or ESP_OK; its meaning is stated by `Ssd1306.InitStatusMeaning` |
| Ssd1306.InitStatusMeaning | components/ssd1306/ssd1306.c:44-61 | init returns ESP_OK iff the bus accepts every one of the 25 commands, and otherwise the status of the first it rejects |
| Ssd1306.SendInitCommands | components/ssd1306/ssd1306.c:44-61 | the command loop stops at the first rejected command and returns its status |
| Ssd1306.Device | components/ssd1306/ssd1306.h:7-12 | `ssd1306_t`: the I2C port, the bus address, and the panel width and height as bytes |
| Ssd1306.Gram.constructor | components/ssd1306/ssd1306.c:12 | the static buffer is 8 x 128 bytes and starts out zeroed |
| Ssd1306.Gram.Fill | components/ssd1306/ssd1306.c:22 | `memset` (here and at line 66) sets every byte of the buffer |
| Ssd1306.Gram.Init | components/ssd1306/ssd1306.c:14-62 | records port I2C_NUM_0, address 0x3C and the given width and height, and zeroes the buffer whatever the bus answers |
| Ssd1306.Gram.ClearScreen | components/ssd1306/ssd1306.c:64-68 | every byte becomes 0xFF when inverted and 0x00 otherwise; returns ESP_OK |
| Ssd1306.Gram.PaintBlock | components/ssd1306/ssd1306.c:82-84 | writes the ink into 8 columns of one page and nothing else |
| Ssd1306.Gram.DisplayText | components/ssd1306/ssd1306.c:70-92 | ESP_ERR_INVALID_ARG iff page >= 8 or text_len > 16, leaving the buffer unchanged; otherwise ESP_OK, the page row is drawn as `Draw` states, and every other page is unchanged |
| Translations.TableFor | main/translations.c:21-27 | LANG_SPANISH gives the Spanish table; every other value, in range or not, gives the English table |
| Translations.TablesDiffer | main/translations.h:34-75 | the English and Spanish tables are different |
| Translations.OutOfRangeIsEnglish | main/translations.c:24-26 | a value that is neither LANG_ENGLISH nor LANG_SPANISH reads as English |
| Translations.LanguageSetting.constructor | main/translations.c:4 | the initial language is English, with the English table |
| Translations.LanguageSetting.GetCurrentLanguage | main/translations.c:7-10 | `get_current_language` reads the stored value and changes nothing (it returns what `SetLanguage` stored, as that method's contract states) |
| Translations.LanguageSetting.SetLanguage | main/translations.c:13-16 | after `set_language(l)` the current language is l and the table is the one l selects |
| Translations.LanguageSetting.GetTranslations | main/translations.c:19-28 | the Spanish table iff the current language is LANG_SPANISH, else the English one |

## Left out

- GPIO configuration, the start pulse and the RTOS delays are not modelled (components/dht/dht.c:19-38, and `vTaskDelay` inside each wait). They are hardware calls; the model starts at the first sample after the line becomes an input.
- `esp_timer_get_time`: each high pulse's timer difference is the abstract natural `measured(k)`. The threshold is "more than 50 timer units", and real time is not modelled.
- `ESP_LOG*` calls and the unused `DHT_TIMEOUT_MS` and `DHT_SAMPLE_PERIOD_MS` constants are left out, since they have no effect on results.
- Floats: readings are exact integers in tenths, so `float` rounding and the sign of -0.0 are not modelled.
- The code does no range check or clamping on decoded values, and neither does the model.
- DhtRead.ReadFloatData: when both output pointers are the same object, only the temperature written last is stated.
- DhtRead.ReadByte: the byte is built in a local variable and stored into data[i] once complete, rather than OR-ed into the array bit by bit; the bytes stored are the same.
- I2C traffic: each command transaction of `ssd1306_init` is reduced to the status the bus returns for it (`bus(i)`). `ssd1306_refresh_gram` (components/ssd1306/ssd1306.c:94-129) is bus output only, and is not part of this model.
- The `dev` parameter of `ssd1306_clear_screen` and `ssd1306_display_text` is unused there, and is omitted.
- Ssd1306.Gram.DisplayText requires 0 <= page, because the code does not reject a negative page and would write outside `gram`. It also requires text_len <= |text| whenever the arguments pass the check, since the code reads text_len characters.
- main/main.c, a counter loop that prints, is not part of this model.
- Concurrency: `gram` and `current_language` are fields of single-threaded objects.
