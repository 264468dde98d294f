/** Input-device selection and the guard in front of recording, from the
    voice-test program planty.py. */
module InputDevice {
  import opened Wrappers

  /** The two fields of PyAudio's device description the program reads. */
  datatype DeviceInfo = DeviceInfo(name: string, maxInputChannels: int)

  predicate IsInput(d: DeviceInfo) {
    d.maxInputChannels > 0
  }

  /** `_get_input_device`: the index of the first device with an input
      channel, scanning in index order; None when there is none. */
  method GetInputDevice(devices: seq<DeviceInfo>) returns (r: Option<nat>)
    ensures r.None? <==> forall i :: 0 <= i < |devices| ==> !IsInput(devices[i])
    ensures r.Some? ==> r.value < |devices| && IsInput(devices[r.value])
    ensures r.Some? ==> forall j :: 0 <= j < r.value ==> !IsInput(devices[j])
  {
    var i := 0;
    while i < |devices|
      invariant 0 <= i <= |devices|
      invariant forall j :: 0 <= j < i ==> !IsInput(devices[j])
    {
      if devices[i].maxInputChannels > 0 {
        return Some(i);
      }
      i := i + 1;
    }
    return None;
  }

  /** What `listen` does: with no device it returns None before calling
      `open`; otherwise it calls `open` inside its `try` and returns what the
      transcriber gives, None when opening, recording or transcribing raised. */
  datatype Listening = Listening(triedOpen: bool, text: Option<string>)

  function Listen(device: Option<nat>, transcribed: Option<string>): (l: Listening)
    ensures device.None? ==> l == Listening(false, None)
    ensures device.Some? ==> l.triedOpen && l.text == transcribed
  {
    if device.None? then Listening(false, None)
    else Listening(true, transcribed)
  }

  /** A device list with no input device never reaches `open`. */
  method SelectAndListen(devices: seq<DeviceInfo>, transcribed: Option<string>) returns (l: Listening)
    ensures l.triedOpen <==> exists i :: 0 <= i < |devices| && IsInput(devices[i])
    ensures l.triedOpen ==> l.text == transcribed
    ensures !l.triedOpen ==> l.text.None?
  {
    var device := GetInputDevice(devices);
    l := Listen(device, transcribed);
  }
}
