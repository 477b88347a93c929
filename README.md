# prusalink-timelapse in Dafny

A model of prusalink-timelapse's three scripts, with proofs:

- **encode_timelapse.py** encodes the `frame_*.jpg` files of a timelapse directory into one MP4 in a single batch job. The video is written to a temporary file and verified with ffprobe and a full ffmpeg decode. It is then moved to `timelapse_<first frame's stem>.mp4`, and only after that are the frames deleted.
- **prusalink_timelapse.py** polls the camera of a PrusaLink printer. It saves a frame whenever the image hash changes and starts the encoder once at startup and after every 240 saved frames.
- **speed_scheduler.py** sets the print speed to the night-time value at startup. It switches to the daytime value once a day at `SPEED_CHANGE_HOUR:00` and re-arms at `:01`.

The model is split into five modules:

- `Wrappers` (wrappers.dfy) holds `Option` and the `Outcome` of a Python call: it returns, or an exception propagates.
- `Strings` (strings.dfy) covers the parts of Python's `str` the scripts rely on:
  - the `<` order that `sorted` uses, and `sorted` of a set of names;
  - zero-padded `strftime` fields;
  - `int()` on a decimal string;
  - newline-terminated lines.
- `Encoder` (encoder.dfy) models encode_timelapse.py.
  - The filesystem is a `Host` object. It has the set of files, the set of directories, the files whose unlink the OS refuses, and a log of the external actions taken (encode, probe, decode, move).
  - Every external tool's result is an input: the encode run, the ffprobe run and its JSON, the decode run, whether the list file can be written, and whether the move raises.
  - `RunEncoder` is `main`. Its `fixedList` parameter chooses the `encode_frames` it calls: `false` is the code as written, and `true` is the corrected version from "## Findings".
- `Capture` (capture.dfy) models prusalink_timelapse.py:
  - the frame name `save_image` builds;
  - the camera lookup;
  - the `setup` chain;
  - one pass of the monitoring loop, first as the pure `Step` and then as the `Monitor` object whose `Poll` follows it.
- `Speed` (speed.dfy) models speed_scheduler.py:
  - the status decision of `set_print_speed` and the request it sends;
  - `setup`;
  - the tick, first as the pure `TickStep` and then as the `Scheduler` object whose `Tick` follows it.

The outside world enters as parameters:

| Input | Encoder | Capture | Speed |
|---|---|---|---|
| clock readings | – | `DateTime` | `hour`, `minute` |
| HTTP replies | – | `CameraReply`, snapshot bytes | `Reply` |
| MD5 of an image | – | a function parameter | – |
| PIL save succeeds | – | a boolean | – |
| tool outcomes | `ToolRun`, `ProbeRun` | – | – |
| names `tempfile` picks | `Env.tmp`, `Env.list` | – | – |
| working directory | `Env.cwd` | – | – |

Where the code and its documentation disagree, the model follows the code:

- The encoder's docstring says it encodes "exactly 240 frames". The code sets `frames_to_encode = all_frames`, so once at least `--frames` frames exist, it encodes all of them. The expected count passed to verification is the length of that batch.
- With `--frames` 0 or less and no frames at all, the threshold check passes. Reading `frames_to_encode[0]` then raises IndexError outside the `try`, so the process exits with status 1 (`Encoder.ExitCode`).

## Model

| member | source | states |
|---|---|---|
| Encoder.GetSortedFrames | encode_timelapse.py:30-33 | the result holds exactly the files of the directory whose names match `frame_*.jpg` (`IsFrameName`), in strictly ascending name order (`Strings.Below`, Python's `<` on `str`) |
| Encoder.FirstFrame | encode_timelapse.py:30-33 | a frame whose name sorts before every other frame of the directory comes first in the list |
| Strings.BelowTransitive | encode_timelapse.py:32 | the order `sorted` uses is transitive |
| Strings.BelowTotal | encode_timelapse.py:32 | any two different names are ordered one way or the other |
| Encoder.SortedFramesDistinct | encode_timelapse.py:30-33 | no frame appears twice in the sorted list |
| Strings.SortedSet | encode_timelapse.py:32 | `sorted` of distinct names is ascending, has exactly the same elements, and has the same size |
| Strings.AscendingUnique | encode_timelapse.py:32 | any ascending sequence with the same elements equals `SortedSet`, so the frame order is fully determined |
| Encoder.FrameStem | encode_timelapse.py:220 | the stem of a frame name (`Stem`, pathlib's last-dot rule for `Path.stem`) is the name without `.jpg`, and adding `.jpg` back gives the name |
| Encoder.OutputNameInjective | encode_timelapse.py:220-221 | two frame names give the same video name (`OutputName`: `timelapse_` + stem + `.mp4`) if and only if they are equal |
| Encoder.RepeatedOutputName | encode_timelapse.py:220-246 | after a publishing run whose first frame could not be deleted, the next run (with only later frames added) again starts from that frame, so it gets the same output name, and that file already exists: its move replaces the earlier video, whose other frames are gone |
| Encoder.OutputNameNotFrame | encode_timelapse.py:220-221 | the video name never matches the frame pattern |
| Encoder.NamesApart | encode_timelapse.py:220-225 | the temporary video, the concat list and the output video are three different files, and the output is not one of the frames |
| Encoder.VerifyVideo | encode_timelapse.py:36-92 | passes if and only if ffprobe reports exactly the expected packet count and the decode exits 0 with empty stderr; raises if and only if ffprobe cannot start, `streams` is empty (IndexError), or the decode cannot start after a matching count; a readable count that differs always gives a count mismatch |
| Encoder.DecimalCountPasses | encode_timelapse.py:63-88 | when ffprobe prints the count in decimal and the decode is clean, the video passes for that count, and any other expected count gives a count mismatch carrying the count read |
| Encoder.CheckVideo | encode_timelapse.py:36-92 | the probe always runs; the decode runs if and only if ffprobe reported the expected count (`ReportsCount`); the result is True, False or an exception as `VerifyVideo` decides; files are untouched |
| Encoder.ConcatListRoundTrip | encode_timelapse.py:103-107 | reading back the concat list gives exactly one entry per frame, holding its absolute path (`Absolute`: relative paths are prefixed with the working directory), in batch order |
| Encoder.BuildList | encode_timelapse.py:105-107 | the loop writes exactly one line `file '<absolute path>'` per frame, in order |
| Strings.LinesOfJoin | encode_timelapse.py:107 | splitting newline-terminated lines that hold no newline gives the lines back |
| Encoder.EncodeFrames | encode_timelapse.py:95-142 | as written: True if and only if the list is written and ffmpeg exits 0; an exception on a failed list write or when ffmpeg cannot start; a failed list write leaves the list file behind |
| Encoder.EncodeFramesCleaned | encode_timelapse.py:95-142 | the same results and the same ffmpeg run, and the set of files is unchanged on every path |
| Encoder.FailedUnlinksExact | encode_timelapse.py:150-155 | for distinct frames, the failure list holds exactly the frames that are missing or whose unlink is refused |
| Encoder.SafeDeleteFrames | encode_timelapse.py:145-160 | every frame is attempted; the failures are `FailedUnlinks`; exactly the frames that can be unlinked disappear |
| Encoder.Host.Unlink | encode_timelapse.py:153 | `unlink` removes a file that is present and not refused; it raises for a refused file, and for a missing one unless `missing_ok` |
| Encoder.Host.MakeDir | encode_timelapse.py:217 | `mkdir(exist_ok=True)` raises only when the directory is missing and cannot be made |
| Encoder.Host.Move | encode_timelapse.py:240 | the move either happens as one step (source gone, destination present, logged) or raises and changes nothing |
| Encoder.EncodeWith | encode_timelapse.py:229 | the call of `encode_frames` in `main`, as written or corrected: the same result and log; the list is left behind exactly when its write failed in the code as written |
| Encoder.TryPublish | encode_timelapse.py:227-251 | inside the `try`: 0 if and only if encode, verify and move all succeed; frames are deleted only then and only without `--keep-frames`; otherwise files are unchanged except for the concat list that the as-written `encode_frames` leaves when its write fails |
| Encoder.PublishBatch | encode_timelapse.py:223-258 | the temporary video is created and removed again by the `finally` on every path; the lasting changes are the published video and the deleted frames, plus the list left by a failed write in the code as written |
| Encoder.RunEncoder | encode_timelapse.py:163-258 | the exit code is `ExitCode`: 1 for a missing directory, 0 below the threshold, 0 after publishing, 1 otherwise; it gives the exact final files, directories and action log; a frame disappears only if it was in the batch, `--keep-frames` is off, and the verified video was moved into place; the temporary video never remains; as written, the concat list remains if and only if the run gets to encoding and the write to the list fails, and with the corrected `encode_frames` it never remains |
| Strings.ParsePadded | encode_timelapse.py:64 | `int()` of a zero-padded decimal field gives back its number |
| Strings.PaddedOrder | prusalink_timelapse.py:126 | fixed-width zero-padded fields compare as strings exactly as their numbers do |
| Capture.Timestamp | prusalink_timelapse.py:126 | `%Y%m%d_%H%M%S` of a valid reading has 15 characters |
| Capture.FrameName | prusalink_timelapse.py:126-127 | every saved name matches the encoder's `frame_*.jpg` pattern |
| Capture.TimestampOrder | prusalink_timelapse.py:126 | timestamp order is chronological order, and equal timestamps mean equal readings |
| Capture.FrameNameOrder | prusalink_timelapse.py:126-127 | frame names sort exactly in the order of the clock readings (`Earlier`, field by field from the year down), and two names coincide only for equal readings |
| Capture.FindCamera | prusalink_timelapse.py:65-71 | the scan stops at the first entry that carries the name sought (or lacks a name); `None` if and only if no entry matches; the id returned is that first entry's |
| Capture.ScanResultUnique | prusalink_timelapse.py:65-67 | the lookup's answer is determined: only the first match counts |
| Capture.GetCameraId | prusalink_timelapse.py:41-75 | 401 or 403 gives `None`, as does any HTTP error, a request exception or undecodable JSON; a body without `camera_list` raises KeyError; otherwise the result of the scan |
| Capture.Setup | prusalink_timelapse.py:166-208 | ready if and only if the password is set, the directory can be made, the lookup gives a non-empty id and the test snapshot has content; the id is the lookup's; an exception escapes only from the lookup |
| Capture.MainExit | prusalink_timelapse.py:287-293 | the loop runs if and only if setup is ready; otherwise the exit status is 1 |
| Capture.Step | prusalink_timelapse.py:229-280 | a frame is saved if and only if the snapshot has content, its hash differs from the last one and the save succeeds; the hash and count change only with a save, the count by exactly 1; encoding is triggered if and only if a save makes the count a multiple of 240; the offline flag follows the snapshot; the warning is issued only when the flag goes up |
| Capture.Monitor.constructor | prusalink_timelapse.py:221-226 | the loop starts with no hash, online, count 0, and one encoding triggered |
| Capture.Monitor.Poll | prusalink_timelapse.py:236-277 | one pass updates the three loop variables and emits events exactly as `Step` does |
| Capture.StepCounts | prusalink_timelapse.py:264-274 | over one pass, the count grows by the number of saves, and triggers equal the multiples of 240 crossed |
| Capture.RunCounts | prusalink_timelapse.py:229-280 | over any run (`Run`, the passes one after another), the count grows by the number of frames saved, and the encoder is triggered once for each multiple of 240 crossed |
| Capture.TriggersFromStart | prusalink_timelapse.py:225-274 | from startup, triggers equal 1 plus the frames saved divided by 240 |
| Speed.SpeedRequest | speed_scheduler.py:51-62 | the POST goes to `http://<host>/api/printer/printhead` with command `speed` and the requested factor |
| Speed.SpeedAccepted | speed_scheduler.py:64-76 | success if and only if the status is 200 or 204; connection errors, timeouts and other request errors are failures |
| Speed.SchedulerSetup | speed_scheduler.py:79-102 | ready if and only if host and password are both set; the host is checked first |
| Speed.MainExit | speed_scheduler.py:147-152 | the scheduler runs if and only if setup succeeded; otherwise the exit status is 1 |
| Speed.Scheduler.constructor | speed_scheduler.py:112-120 | exactly one night-time request is sent at startup; the flag starts down whatever the reply |
| Speed.TickStep | speed_scheduler.py:122-140 | the daytime call is made if and only if it is target:00 and the flag is down; the flag goes up only through an accepted call; it goes down exactly at target:01 while up; at any other time nothing changes |
| Speed.Scheduler.Tick | speed_scheduler.py:124-137 | one tick updates the flag and sends the daytime request exactly as `TickStep` does |
| Speed.AcceptedPerRearm | speed_scheduler.py:122-140 | over any run of ticks (`Ticks`), accepted daytime calls number at most the target:01 ticks, plus one if the flag started down; a flag that ends down lowers that bound by one; accepted calls never exceed calls made |
| Speed.RaisedStaysQuiet | speed_scheduler.py:129 | once the flag is up and there is no re-arm tick, no call is made and the flag stays up |
| Speed.AtMostOncePerWindow | speed_scheduler.py:129-136 | between re-arms the daytime speed is accepted at most once, and never if the flag was already up; a raised flag comes from that one success |
| Speed.FailedCallRetried | speed_scheduler.py:129-132 | a refused daytime call leaves the flag down, so the next tick in the same minute calls again |

## Left out

- Process I/O, ffmpeg and ffprobe themselves: codecs, pixel formats, and the meaning of `-r`. Tool runs are inputs.
- Real time, `time.sleep` and the poll cadence: ticks and passes are sequences of readings. Missed minutes are not modelled.
- Logging, argparse, dotenv and environment loading: configuration values are parameters.
- `KeyboardInterrupt` handling, which makes both loops return 0.
- Concurrency between overlapping encoder runs. The code has no locking.
- Temporary names: `tempfile` naming and creation failures of the temporary video, and crash durability of `shutil.move`. The move is one step that either succeeds or raises.
- Path normalisation beyond prefixing the working directory in `absolute()`. Frame paths are `(directory, name)` pairs, and `glob` is taken to return files only.
- Filename collisions and quoting. Two captures with equal clock readings get the same name (`Capture.FrameNameOrder` states exactly when), and `image.save` then overwrites the earlier frame. Paths containing `'` or a newline are not escaped in the concat list, so `Encoder.ConcatListRoundTrip` requires paths without them.
- Capture.FrameNameOrder: local time can step back, through a daylight-saving fall-back or a clock adjustment. Readings are not tied to real time, so name order is the order of the readings, not the order of capture. After a fall-back, captures an hour apart can share a name, and frames from the repeated hour sort before frames captured earlier.
- Encoder.RunEncoder: assumes the process can unlink the two temporary files it has just created. `FreshNames` keeps the temporary video and the concat list out of the refused set. A permission change or a read-only remount during the run is not modelled. Under one, `main` would exit 1; a raising unlink in its `finally` would escape with a traceback and leave the temporary video on disk.
- Encoder.PublishBatch: makes the same assumption for the temporary video. Its "removed by the `finally` on every path" holds only when that unlink cannot be refused.
- Encoder.EncodeFrames: assumes the same for the concat list (and so do `Encoder.EncodeFramesCleaned` and `Encoder.EncodeWith`). A refused unlink in its `finally` would turn a finished encode into an exception.
- Capture.ValidTime: only 4-digit years (1000–9999) are modelled. `strftime` pads differently outside that range.
- Strings.ParseInt: models an optional sign followed by ASCII digits. It does not model the leading and trailing whitespace, underscores and non-ASCII digits that Python's `int()` also accepts.
- Encoder.VerifyVideo: the TypeErrors that JSON of the wrong shape would raise (a non-object document, `null` entries) are not modelled.
- Capture.GetCameraId: the TypeError of a JSON document that is not an object is not modelled, and camera ids are strings.
- Capture.Step: the `except` around the MD5 hash is not modelled. The hash is a total function, and `hashlib.md5` on bytes does not raise.
- Capture.Step: the loop's re-check of the password is not modelled. The password is a constant that setup has already found set, so that branch never returns 1.
- `trigger_encoding` is modelled only as an `EncodingTriggered` event. Whether the script file exists and the detached `Popen` are left out.
- HTTP headers, URLs and timeouts of the snapshot and camera requests are left out. A snapshot is its bytes or nothing, and `get_snapshot`'s error handling is folded into "nothing".

## Findings

| source | as written | input that shows it | evidently intended | confidence | as-written member | corrected member |
|---|---|---|---|---|---|---|
| encode_timelapse.py:103-109 | the concat list is created and written inside the `with` block before the `try`, so the `finally` at line 142 does not cover the writes | a write to the list raises (for example a full disk): the exception leaves `encode_frames` and the list file stays in the temporary directory | the list file is removed on every exit path of `encode_frames`, as its `finally` suggests | not executed | Encoder.EncodeFrames, Encoder.ListLeftBehind | Encoder.EncodeFramesCleaned |

`Encoder.RunEncoder` with `fixedList` false models `main` as written, and `Encoder.RunEncoder` with `fixedList` true models it with the corrected `Encoder.EncodeFramesCleaned`. An `Encoder.RunEncoder` ensures states the difference: the list remains exactly in the first case, after a failed write.

`Encoder.RepeatedOutputName` records a second consequence of the code as written, listed here but not as a finding:
- A frame whose unlink is refused (a permission problem, say) stays first in the directory.
- The next run therefore publishes under the same name, and `shutil.move` replaces the earlier video.
- The earlier video's other frames were already deleted.
The model keeps this behaviour as the code has it.
