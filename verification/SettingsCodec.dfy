/** The three loops over a SETTINGS frame's pairs, each proved against the function that specifies it. */
module SettingsCodec {
  import opened Octets
  import opened H2
  import opened Frames

  lemma {:induction false} SettingsPayloadSnoc(settings: seq<Setting>, s: Setting)
    ensures SettingsPayload(settings + [s]) == SettingsPayload(settings) + Be16(s.id) + Be32(s.value)
  {
    if settings == [] {
      assert ([] + [s])[1..] == [];
    } else {
      SettingsPayloadSnoc(settings[1..], s);
      assert (settings + [s])[1..] == settings[1..] + [s];
      assert Be16(settings[0].id) + Be32(settings[0].value)
          + (SettingsPayload(settings[1..]) + Be16(s.id) + Be32(s.value))
          == SettingsPayload(settings) + Be16(s.id) + Be32(s.value);
    }
  }

  /** Appends every pair, in order, to what is there already. */
  method AppendPayload(dst: seq<byte>, settings: seq<Setting>) returns (out: seq<byte>)
    ensures out == dst + SettingsPayload(settings)
  {
    out := dst;
    for i := 0 to |settings|
      invariant out == dst + SettingsPayload(settings[..i])
    {
      SettingsPayloadSnoc(settings[..i], settings[i]);
      assert settings[..i + 1] == settings[..i] + [settings[i]];
      out := out + Be16(settings[i].id);
      out := out + Be32(settings[i].value);
    }
    assert settings[..|settings|] == settings;
  }

  /** What remains to be read, with the pairs read so far in front of it. */
  ghost function After(done: seq<Setting>, r: Result<seq<Setting>>): Result<seq<Setting>> {
    if r.Ok? then Ok(done + r.value) else r
  }

  lemma SameSetting(b: seq<byte>)
    requires |b| >= SETTING_LEN
    ensures ReadSetting(b[..SETTING_LEN]) == ReadSetting(b)
  {
    assert b[..SETTING_LEN][2..] == b[2..SETTING_LEN];
  }

  lemma AfterOne(done: seq<Setting>, s: Setting, rest: Result<seq<Setting>>)
    ensures After(done + [s], rest) == After(done, if rest.Ok? then Ok([s] + rest.value) else rest)
  {
    if rest.Ok? {
      assert done + ([s] + rest.value) == done + [s] + rest.value;
    }
  }

  lemma OnePair(done: seq<Setting>, b: seq<byte>)
    requires b != [] && |b| % SETTING_LEN == 0
    ensures ReadSetting(b[..SETTING_LEN]) == ReadSetting(b)
    ensures var s := ReadSetting(b);
      After(done, ReadSettings(b)) == match ValidateSetting(s)
                                      case Some(fault) => Err(fault)
                                      case None => After(done + [s], ReadSettings(b[SETTING_LEN..]))
  {
    SameSetting(b);
    hide ReadSetting, ValidateSetting;
    AfterOne(done, ReadSetting(b), ReadSettings(b[SETTING_LEN..]));
  }

  /** Divides a payload into pairs, stopping at the first that is out of range. */
  method ParsePairs(b: seq<byte>) returns (r: Result<seq<Setting>>)
    requires |b| % SETTING_LEN == 0
    ensures r == ReadSettings(b)
  {
    hide ReadSetting, ValidateSetting;
    var count := |b| / SETTING_LEN;
    var settings := [];
    assert b[SETTING_LEN * 0..] == b;
    assert ReadSettings(b).Ok? ==> [] + ReadSettings(b).value == ReadSettings(b).value;
    for i := 0 to count
      invariant After(settings, ReadSettings(b[SETTING_LEN * i..])) == ReadSettings(b)
    {
      ghost var rest := b[SETTING_LEN * i..];
      OnePair(settings, rest);
      assert rest[..SETTING_LEN] == b[SETTING_LEN * i..SETTING_LEN * (i + 1)];
      assert rest[SETTING_LEN..] == b[SETTING_LEN * (i + 1)..];
      var s := ReadSetting(b[SETTING_LEN * i..SETTING_LEN * (i + 1)]);
      match ValidateSetting(s)
      case Some(fault) => return Err(fault);
      case None => settings := settings + [s];
    }
    assert b[SETTING_LEN * count..] == [] && settings + [] == settings;
    return Ok(settings);
  }

  /**
    The effective value of an identifier: that of its last occurrence, which is what applying pairs in order leaves.
   */
  method Get(settings: seq<Setting>, id: uint16) returns (value: uint32, found: bool)
    ensures found <==> exists i | 0 <= i < |settings| :: settings[i].id == id
    ensures found ==> exists i | 0 <= i < |settings| ::
                settings[i] == Setting(id, value) && forall j | i < j < |settings| :: settings[j].id != id
    ensures !found ==> value == 0
  {
    value, found := 0, false;
    ghost var last := 0;
    for k := 0 to |settings|
      invariant found ==> last < k && settings[last] == Setting(id, value)
      invariant forall j | (if found then last + 1 else 0) <= j < k :: settings[j].id != id
      invariant !found ==> value == 0
    {
      if settings[k].id == id {
        value, found, last := settings[k].value, true, k;
      }
    }
  }
}
