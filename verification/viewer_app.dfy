/** Pure helpers inside the viewer's `Application`: the sandpit command-line
    flag, the data-query placeholder, the screenshot file extension, and screen
    device lookup and window state. */
module ViewerApplication {
  import opened Wrappers
  import Text

  /** The last argument, lower-cased then trimmed, if there is one. */
  function LastArgument(args: seq<string>): (o: Option<string>)
    ensures o.None? <==> |args| == 0
    ensures o.Some? ==> o.value == Text.Trim(Text.Lower(args[|args| - 1]))
  {
    if |args| > 0 then Some(Text.Trim(Text.Lower(args[|args| - 1]))) else None
  }

  /** Whether the viewer runs in sandpit mode. */
  predicate IsSandpit(args: seq<string>) {
    LastArgument(args) == Some("-sandpit") || LastArgument(args) == Some("--sandpit")
  }

  /** How many arguments `main` goes on to use: the sandpit flag is not one. */
  function EffectiveArgumentCount(args: seq<string>): (n: nat)
    ensures IsSandpit(args) ==> n == |args| - 1
    ensures !IsSandpit(args) ==> n == |args|
  {
    if IsSandpit(args) then |args| - 1 else |args|
  }

  /** The argument tried as the theme's URL or file name, if any. */
  function ThemeArgument(args: seq<string>): (o: Option<string>)
    ensures o.Some? <==> EffectiveArgumentCount(args) > 0
    ensures o.Some? ==> o.value == args[0]
  {
    if EffectiveArgumentCount(args) > 0 then Some(args[0]) else None
  }

  /** Appending `-sandpit` or `--sandpit`, in any case and with surrounding
      blanks, turns on sandpit mode and leaves the theme argument as it was. */
  lemma SandpitFlagDoesNotChangeTheme(args: seq<string>, flag: string)
    requires Text.Trim(Text.Lower(flag)) == "-sandpit" || Text.Trim(Text.Lower(flag)) == "--sandpit"
    ensures IsSandpit(args + [flag])
    ensures EffectiveArgumentCount(args + [flag]) == |args|
    ensures ThemeArgument(args + [flag]) == (if |args| > 0 then Some(args[0]) else None)
  {
    var all := args + [flag];
    assert all[|all| - 1] == flag;
    assert LastArgument(all) == Some(Text.Trim(Text.Lower(flag)));
    if |args| > 0 {
      assert all[0] == args[0];
    }
  }

  const Placeholder := "#bbox#"

  /** `initDataQuery`: the first `#bbox#` in the query URL is replaced by the
      bounding box text; later ones, and a URL without one, are left alone. */
  function SubstituteBbox(external: string, bbox: string): (r: string)
    ensures Text.IndexOf(external, Placeholder) < 0 ==> r == external
    ensures Text.IndexOf(external, Placeholder) >= 0 ==>
      var i := Text.IndexOf(external, Placeholder);
      i + |Placeholder| <= |external| && r == external[..i] + bbox + external[i + |Placeholder|..]
  {
    var i := Text.IndexOf(external, Placeholder);
    if i >= 0 then external[..i] + bbox + external[i + |Placeholder|..] else external
  }

  /** A URL made of a placeholder-free head, the placeholder and any tail has the
      placeholder replaced in place and the tail kept, placeholders included. */
  lemma SubstituteFirstPlaceholderOnly(head: string, tail: string, bbox: string)
    requires Text.IndexOf(head + Placeholder, Placeholder) == |head|
    ensures SubstituteBbox(head + Placeholder + tail, bbox) == head + bbox + tail
  {
    var s := head + Placeholder + tail;
    assert Text.OccursAt(s, Placeholder, |head|) by {
      assert s[|head|..|head| + |Placeholder|] == Placeholder;
    }
    forall j | 0 <= j < |head| ensures !Text.OccursAt(s, Placeholder, j) {
      assert !Text.OccursAt(head + Placeholder, Placeholder, j);
      assert (head + Placeholder)[j..j + |Placeholder|] == s[j..j + |Placeholder|];
    }
    assert Text.IndexOf(s, Placeholder) == |head|;
    assert s[..|head|] == head;
    assert s[|head| + |Placeholder|..] == tail;
  }

  /** A save-dialog file filter: one per image format, or some other filter. */
  datatype FileFilter = FormatFilter(format: string) | OtherFilter

  /** The extension to save with: the chosen filter's format when it is one of
      the format filters made for the dialog, and "jpg" otherwise. */
  function ChooseExtension(selected: FileFilter, created: seq<FileFilter>): (ext: string)
    ensures selected in created && selected.FormatFilter? ==> ext == selected.format
    ensures selected !in created || selected.OtherFilter? ==> ext == "jpg"
  {
    if selected in created && selected.FormatFilter? then selected.format else "jpg"
  }

  /** A file name's extension: the text after its last '.', provided that dot
      is not the first character. */
  function Extension(name: string): (o: Option<string>)
    ensures o.Some? <==> Text.LastIndexOf(name, '.') > 0
    ensures o.Some? ==> var i := Text.LastIndexOf(name, '.'); o.value == name[i + 1..]
  {
    var i := Text.LastIndexOf(name, '.');
    if i > 0 then Some(name[i + 1..]) else None
  }

  /** `saveImage`'s extension fix: the name is kept when its extension equals the
      wanted one ignoring case, and otherwise gets "." and the wanted one appended. */
  function FixExtension(name: string, newExt: string): (r: string)
    ensures r == name <==> Extension(name).Some? && Text.Lower(Extension(name).value) == newExt
    ensures r != name ==> r == name + "." + newExt
  {
    var ext := Extension(name);
    if ext.None? || newExt != Text.Lower(ext.value) then name + "." + newExt else name
  }

  /** A fixed name always ends in the wanted extension (as long as the name is
      not empty and the extension is lower case with no dot), so fixing it again
      changes nothing. */
  lemma FixedNameHasExtension(name: string, newExt: string)
    requires |name| > 0 && Text.Lower(newExt) == newExt && '.' !in newExt
    ensures Extension(FixExtension(name, newExt)).Some?
    ensures Text.Lower(Extension(FixExtension(name, newExt)).value) == newExt
    ensures FixExtension(FixExtension(name, newExt), newExt) == FixExtension(name, newExt)
  {
    var r := FixExtension(name, newExt);
    if r != name {
      assert r[|name|] == '.';
      assert r[|name| + 1..] == newExt;
      assert forall j :: |name| < j < |r| ==> r[j] == newExt[j - |name| - 1];
      Text.LastIndexOfIs(r, '.', |name|);
    }
  }

  /** A name that is only a dot and an extension has no extension, so it gets a
      second one. */
  lemma LeadingDotIsNotAnExtension()
    ensures FixExtension(".jpg", "jpg") == ".jpg.jpg"
  {
    Text.LastIndexOfIs(".jpg", '.', 0);
  }

  /** An extension differing only in case is kept; a different one gets the
      wanted extension appended rather than replaced. */
  lemma ExtensionCaseIsIgnored()
    ensures FixExtension("shot.JPG", "jpg") == "shot.JPG"
    ensures FixExtension("shot.png", "jpg") == "shot.png.jpg"
  {
    Text.LastIndexOfIs("shot.JPG", '.', 4);
    assert "shot.JPG"[5..] == "JPG";
    assert Text.Lower("JPG") == "jpg";
    Text.LastIndexOfIs("shot.png", '.', 4);
    assert "shot.png"[5..] == "png";
    assert Text.Lower("png") == "png";
  }

  /** A screen device: its id string and its identity. */
  datatype Device = Device(id: string, handle: nat)

  /** `getGraphicsDeviceForId`: the first device with the given id, or the
      default device when there is no id or no device has it. */
  function GraphicsDeviceForId(deviceId: Option<string>, devices: seq<Device>, default: Device): (d: Device)
    ensures deviceId.None? ==> d == default
    ensures deviceId.Some? && (forall k :: 0 <= k < |devices| ==> devices[k].id != deviceId.value) ==> d == default
    ensures deviceId.Some? && d != default ==> d in devices && d.id == deviceId.value
    ensures deviceId.Some? ==> forall k :: 0 <= k < |devices| && devices[k].id == deviceId.value ==>
      d == devices[FirstWithId(devices, deviceId.value).value]
  {
    if deviceId.None? then default
    else match FirstWithId(devices, deviceId.value)
      case Some(k) => devices[k]
      case None => default
  }

  function FirstWithId(devices: seq<Device>, id: string): (o: Option<nat>)
    ensures o.Some? ==> o.value < |devices| && devices[o.value].id == id
    ensures o.Some? ==> forall k :: 0 <= k < o.value ==> devices[k].id != id
    ensures o.None? <==> forall k :: 0 <= k < |devices| ==> devices[k].id != id
    decreases |devices|
  {
    if |devices| == 0 then None
    else if devices[0].id == id then Some(0)
    else match FirstWithId(devices[1..], id)
      case Some(k) => Some(k + 1)
      case None => None
  }

  /** `getOtherGraphicsDevice`: the first device that is not the given one, or
      none when every device is it. */
  function OtherGraphicsDevice(device: Device, devices: seq<Device>): (o: Option<Device>)
    ensures o.Some? ==> o.value in devices && o.value != device
    ensures o.Some? ==> exists k :: 0 <= k < |devices| && devices[k] == o.value && forall j :: 0 <= j < k ==> devices[j] == device
    ensures o.None? <==> forall k :: 0 <= k < |devices| ==> devices[k] == device
    decreases |devices|
  {
    if |devices| == 0 then None
    else if devices[0] != device then Some(devices[0])
    else
      var o := OtherGraphicsDevice(device, devices[1..]);
      if o.Some? then
        var k :| 0 <= k < |devices| - 1 && devices[1..][k] == o.value && forall j :: 0 <= j < k ==> devices[1..][j] == device;
        assert devices[k + 1] == o.value;
        assert forall j :: 0 <= j < k + 1 ==> devices[j] == device by {
          forall j | 0 <= j < k + 1 ensures devices[j] == device {
            if j > 0 { assert devices[j] == devices[1..][j - 1]; }
          }
        }
        o
      else o
  }

  /** `JFrame.MAXIMIZED_HORIZ` and `JFrame.MAXIMIZED_VERT`. */
  const MaximizedHoriz: bv32 := 2
  const MaximizedVert: bv32 := 4

  /** `isMaximized`: the extended state has both maximised bits. */
  function IsMaximized(extendedState: bv32): (b: bool)
    ensures b <==> extendedState & MaximizedHoriz != 0 && extendedState & MaximizedVert != 0
  {
    extendedState & (MaximizedHoriz | MaximizedVert) == MaximizedHoriz | MaximizedVert
  }
}
