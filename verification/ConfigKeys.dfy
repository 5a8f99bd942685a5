/** Every key and value the writer uses is the reader's. */
module ConfigKeys {
  import opened Common
  import opened ConfigText
  import opened Config
  import opened ConfigLines

  // ---------------------------------------------------------------- keys

  lemma ShortKeysRead()
    ensures ShortKey("type") == Some(KType)
    ensures ShortKey("enabled") == Some(KEnabled)
    ensures ShortKey("devices") == Some(KDevices)
    ensures ShortKey("port") == Some(KDevice)
    ensures ShortKey("speed") == Some(KSpeed)
    ensures ShortKey("txtail") == Some(KTail)
    ensures ShortKey("parity") == Some(KParity)
    ensures ShortKey("txpower") == Some(KPower)
  {
    assert "type"[0] == 't' && "enabled"[0] == 'e' && "devices"[0] == 'd' && "port"[0] == 'p';
    assert "txtail"[0] == 't' && "parity"[0] == 'p' && "txpower"[0] == 't';
  }

  lemma MiddleKeysRead()
    ensures MiddleKey("listen_ip") == Some(KListenIp)
    ensures MiddleKey("group_id") == Some(KGroup)
    ensures MiddleKey("data_port") == Some(KDataPort)
    ensures MiddleKey("preamble") == Some(KPreamble)
    ensures MiddleKey("slottime") == Some(KSlot)
    ensures MiddleKey("databits") == Some(KDataBits)
    ensures MiddleKey("stopbits") == Some(KStopBits)
    ensures MiddleKey("frequency") == Some(KFrequency)
    ensures MiddleKey("bandwidth") == Some(KBandwidth)
  {
    assert "listen_ip"[0] == 'l' && "group_id"[0] == 'g' && "data_port"[0] == 'd' && "preamble"[0] == 'p';
    assert "slottime"[1] == 'l' && "databits"[0] == 'd' && "stopbits"[1] == 't' && "frequency"[0] == 'f';
    assert "bandwidth"[0] == 'b';
  }

  lemma LongKeysRead()
    ensures LongKey("target_host") == Some(KTargetHost)
    ensures LongKey("target_port") == Some(KTargetPort)
    ensures LongKey("listen_port") == Some(KListenPort)
    ensures LongKey("forward_ip") == Some(KForwardIp)
    ensures LongKey("forward_port") == Some(KForwardPort)
    ensures LongKey("persistence") == Some(KPersistence)
    ensures LongKey("flow_control") == Some(KFlow)
    ensures LongKey("codingrate") == Some(KCoding)
  {
    assert "target_host"[7] == 'h' && "target_port"[0] == 't' && "target_port"[7] == 'p' && "listen_port"[0] == 'l';
    assert "forward_ip"[0] == 'f' && "forward_port"[1] == 'o' && "persistence"[0] == 'p' && "flow_control"[1] == 'l';
    assert "codingrate"[0] == 'c';
  }

  lemma LongestKeysRead()
    ensures LongestKey("interface_enabled") == Some(KLegacyEnabled)
    ensures LongestKey("discovery_scope") == Some(KScope)
    ensures LongestKey("multicast_address_type") == Some(KAddressType)
    ensures LongestKey("discovery_port") == Some(KDiscoveryPort)
    ensures LongestKey("configured_bitrate") == Some(KBitrate)
    ensures LongestKey("ignored_devices") == Some(KIgnored)
    ensures LongestKey("spreadingfactor") == Some(KSpreading)
    ensures LongestKey("airtime_limit_short") == Some(KShortLimit)
    ensures LongestKey("airtime_limit_long") == Some(KLongLimit)
  {
    assert "discovery_scope"[0] == 'd' && "configured_bitrate"[0] == 'c' && "ignored_devices"[0] == 'i' && "spreadingfactor"[0] == 's';
    assert "airtime_limit_long"[0] == 'a';
  }

  lemma ShortKeywords()
    ensures Keyword("type") && Keyword("enabled") && Keyword("devices") && Keyword("port")
    ensures Keyword("speed") && Keyword("txtail") && Keyword("parity") && Keyword("txpower")
  {
  }

  lemma MiddleKeywords()
    ensures Keyword("listen_ip") && Keyword("group_id") && Keyword("data_port") && Keyword("preamble")
    ensures Keyword("slottime") && Keyword("databits") && Keyword("stopbits") && Keyword("frequency")
    ensures Keyword("bandwidth")
  {
  }

  lemma LongKeywords()
    ensures Keyword("target_host") && Keyword("target_port") && Keyword("listen_port") && Keyword("forward_ip")
    ensures Keyword("forward_port") && Keyword("persistence") && Keyword("flow_control") && Keyword("codingrate")
  {
  }

  lemma LongestKeywords()
    ensures Keyword("interface_enabled") && Keyword("discovery_scope") && Keyword("multicast_address_type") && Keyword("discovery_port")
    ensures Keyword("configured_bitrate") && Keyword("ignored_devices") && Keyword("spreadingfactor") && Keyword("airtime_limit_short")
    ensures Keyword("airtime_limit_long")
  {
  }

  // The writer's names by length, as the reader looks them up.

  predicate ShortName(k: Key) {
    k.KType? || k.KEnabled? || k.KDevices? || k.KDevice? || k.KSpeed? || k.KTail? || k.KParity? || k.KPower?
  }

  predicate MiddleName(k: Key) {
    k.KListenIp? || k.KGroup? || k.KDataPort? || k.KPreamble? || k.KSlot? || k.KDataBits? || k.KStopBits?
    || k.KFrequency? || k.KBandwidth?
  }

  predicate LongName(k: Key) {
    k.KTargetHost? || k.KTargetPort? || k.KListenPort? || k.KForwardIp? || k.KForwardPort? || k.KPersistence?
    || k.KFlow? || k.KCoding?
  }

  lemma ShortKeyRead(k: Key)
    requires ShortName(k)
    ensures |KeyName(k)| <= 7 && ShortKey(KeyName(k)) == Some(k)
  {
    hide ShortKey;
    ShortKeysRead();
  }

  lemma MiddleKeyRead(k: Key)
    requires MiddleName(k)
    ensures 8 <= |KeyName(k)| <= 9 && MiddleKey(KeyName(k)) == Some(k)
  {
    hide MiddleKey;
    MiddleKeysRead();
  }

  lemma LongKeyRead(k: Key)
    requires LongName(k)
    ensures 10 <= |KeyName(k)| <= 12 && LongKey(KeyName(k)) == Some(k)
  {
    hide LongKey;
    LongKeysRead();
  }

  lemma LongestKeyRead(k: Key)
    requires !ShortName(k) && !MiddleName(k) && !LongName(k)
    ensures 13 <= |KeyName(k)| && LongestKey(KeyName(k)) == Some(k)
  {
    hide LongestKey;
    LongestKeysRead();
  }

  /** The reader takes the spelling the writer uses for the same key. */
  lemma KeyRead(k: Key)
    ensures KeyOf(KeyName(k)) == Some(k)
  {
    hide KeyName, ShortKey, MiddleKey, LongKey, LongestKey, ShortName, MiddleName, LongName;
    if ShortName(k) {
      ShortKeyRead(k);
    } else if MiddleName(k) {
      MiddleKeyRead(k);
    } else if LongName(k) {
      LongKeyRead(k);
    } else {
      LongestKeyRead(k);
    }
  }

  lemma KeyKeyword(k: Key)
    ensures Keyword(KeyName(k))
  {
    hide Keyword;
    ShortKeywords();
    MiddleKeywords();
    LongKeywords();
    LongestKeywords();
  }

  lemma OptionsRead()
    ensures OptionOf("enable_transport") == Some(OTransport)
    ensures OptionOf("share_instance") == Some(OShare)
    ensures OptionOf("panic_on_interface_error") == Some(OPanic)
    ensures OptionOf("shared_instance_type") == Some(OType)
    ensures OptionOf("instance_name") == Some(OName)
    ensures OptionOf("shared_instance_port") == Some(OPort)
    ensures OptionOf("instance_control_port") == Some(OControlPort)
  {
    assert "shared_instance_type"[16] == 't' && "shared_instance_port"[16] == 'p';
  }

  lemma OptionRead(k: OptionKey)
    ensures OptionOf(OptionName(k)) == Some(k)
  {
    hide OptionOf;
    OptionsRead();
  }

  lemma OptionKeywords()
    ensures Keyword("enable_transport") && Keyword("share_instance") && Keyword("panic_on_interface_error")
    ensures Keyword("shared_instance_type") && Keyword("instance_name") && Keyword("shared_instance_port")
    ensures Keyword("instance_control_port")
  {
  }

  lemma OptionKeyword(k: OptionKey)
    ensures Keyword(OptionName(k))
  {
    hide Keyword;
    OptionKeywords();
  }

  // ---------------------------------------------------------------- values

  /** A value that can be written and read back. */
  predicate Writable(s: string) {
    Clean(s) && |s| < VALUE_MAX
  }

  lemma YesNoReads(b: bool)
    ensures Boolean(YesNo(b)) == Some(b) && Writable(YesNo(b)) && YesNo(b) != ""
  {
    if b {
      assert Lower("Yes") == Lower("yes");
    } else {
      assert Lower("No") == Lower("no");
      assert Lower("No")[0] == 'n' && Lower("on")[0] == 'o';
    }
  }

  lemma SharedReads(b: bool)
    ensures var s := if b then "unix" else "tcp"; SharedType(s) == Some(b) && Writable(s) && s != ""
  {
  }

  lemma ParityReads(c: char)
    requires c == 'N' || c == 'E' || c == 'O'
    ensures Parity([c]) == Some(c) && Writable([c])
  {
    assert Lower([c])[0] == LowerChar(c);
    assert Lower("N")[0] == 'n' && Lower("E")[0] == 'e' && Lower("O")[0] == 'o';
  }

  lemma KindReads(k: Kind)
    requires !k.Provider?
    ensures ParseKind(KindName(k)) == Some(k)
  {
    assert Lower(KindName(TcpClient))[3] == 'c' && Lower(KindName(TcpServer))[3] == 's';
    assert Lower(KindName(Auto))[0] == 'a' && Lower(KindName(Kiss))[0] == 'k';
  }

  predicate Word(s: string) {
    1 <= |s| < VALUE_MAX && forall i :: 0 <= i < |s| ==> 'A' <= s[i] <= 'Z' || 'a' <= s[i] <= 'z'
  }

  lemma WordWritable(s: string)
    requires Word(s)
    ensures Writable(s)
  {
  }

  lemma NetWords()
    ensures Word("TCPClientInterface") && Word("TCPServerInterface") && Word("UDPInterface")
  {
  }

  lemma KindWords()
    ensures Word("AutoInterface") && Word("KISSInterface") && Word("RNodeInterface") && Word("RuntimeProvider")
  {
  }

  lemma KindWord(k: Kind)
    ensures Writable(KindName(k)) && KindName(k) != ""
  {
    hide Writable, Word;
    NetWords();
    KindWords();
    WordWritable(KindName(k));
  }

  lemma NumeralWritable(s: string)
    requires s != "" && |s| < VALUE_MAX
    requires forall i :: 0 <= i < |s| ==> '0' <= s[i] <= '9' || s[i] == '.' || s[i] == '-'
    ensures Writable(s)
  {
  }

  lemma DecWritable(n: nat)
    requires n <= U32
    ensures Writable(Dec(n)) && |Dec(n)| <= 10
  {
    hide Dec, Writable, Value;
    DecReads(n);
    TenDigits();
    DecLength(n, 10);
    assert forall i :: 0 <= i < |Dec(n)| ==> DecDigit(Dec(n)[i]).Some?;
    NumeralWritable(Dec(n));
  }

  lemma TenDigits()
    ensures Pow10(10) == 10000000000
  {
    assert Pow10(5) == 100000;
    assert Pow10(8) == 100000000;
  }

  lemma IntWritable(n: int)
    requires -127 <= n <= 127
    ensures Writable(Int(n))
  {
    hide Dec, Writable, Value;
    var m := if n < 0 then -n else n;
    DecReads(m);
    DecWritable(m);
    assert forall i :: 0 <= i < |Dec(m)| ==> DecDigit(Dec(m)[i]).Some?;
    NumeralWritable(Int(n));
  }

  lemma PercentWritable(h: nat)
    requires h <= 10000
    ensures Writable(PercentText(h)) && PercentText(h) != ""
  {
    hide Dec, Writable, Value;
    var w, f := Dec(h / 100), TwoDigits(h % 100);
    DecReads(h / 100);
    DecWritable(h / 100);
    TwoDigitsRead(h % 100);
    assert forall i :: 0 <= i < |w| ==> DecDigit(w[i]).Some?;
    assert forall i :: 0 <= i < |f| ==> DecDigit(f[i]).Some?;
    NumeralWritable(PercentText(h));
  }

  /** A number in range prints and reads back. */
  lemma NumberReads(n: nat, low: nat, high: nat)
    requires low <= n <= high <= U32
    ensures Number(Dec(n), low, high) == Some(n) && Writable(Dec(n))
  {
    hide Dec, Writable;
    DecUnsigned(n, high);
    DecWritable(n);
  }
}
