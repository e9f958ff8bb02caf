/** The frame builders: each fills in the signals of one outgoing frame,
    starting from the signal values last received for it, and returns the
    frame packed by the message packer. The packer's layout (the message
    database) is a parameter: it turns a message name and signal values
    into payload bytes. */
module HyundaiCan {
  import opened Common
  import opened HyundaiValues
  import opened HyundaiChecksum

  /** The messages built here, by their names in the message database. */
  datatype Message = LKAS11 | CLU11 | SCC12 | MDPS12 | LFAHDA_MFC

  /** Signal names, as in the message database: the signals the builders
      read or write get a constructor; any other signal of a received frame
      is carried through under its name. */
  datatype Signal =
    | CF_Lkas_LdwsSysState | CF_Lkas_SysWarning | CF_Lkas_LdwsLHWarning | CF_Lkas_LdwsRHWarning
    | CR_Lkas_StrToqReq | CF_Lkas_ActToi | CF_Lkas_ToiFlt | CF_Lkas_MsgCount | CF_Lkas_Chksum
    | CF_Lkas_Bca_R | CF_Lkas_LdwsOpt_USM | CF_Lkas_FcwOpt_USM
    | CF_Clu_CruiseSwState | CF_Clu_Vanz | CF_Clu_AliveCnt1
    | ACCMode | aReqMax | aReqMin | CR_VSM_Alive | CR_VSM_ChkSum
    | CF_Mdps_ToiActive | CF_Mdps_ToiUnavail | CF_Mdps_MsgCount2 | CF_Mdps_Chksum2
    | ACTIVE | HDA_USM
    | OtherSignal(name: string)

  /** Signal values by signal name. */
  type Signals = map<Signal, real>

  /** The packer's payload for a message and signal values. */
  type Packer = (Message, Signals) -> seq<Byte>

  /** A frame as handed to the CAN sender: message, bus and payload. */
  datatype CanMsg = CanMsg(name: Message, bus: int, dat: seq<Byte>)

  /** A built frame: the signal values written, and the packed frame. */
  datatype Built = Built(values: Signals, msg: CanMsg)

  // ---------------------------------------------------------------------
  // Writing signals over a received frame

  /** A written signal hides the received value. */
  lemma MergeOverwrites(m: Signals, k: Signal, x: real, w: Signals)
    requires k in w
    ensures m[k := x] + w == m + w
  {
  }

  /** A signal the first merged map supplies and the second does not takes
      the first one's value. */
  lemma MergeKeeps(m: Signals, w1: Signals, w2: Signals, k: Signal)
    requires k in w1 && k !in w2
    ensures k in m + (w1 + w2) && (m + (w1 + w2))[k] == w1[k]
  {
  }

  function BoolValue(b: bool): real {
    if b then 1.0 else 0.0
  }

  // ---------------------------------------------------------------------
  // Rolling counters

  /** A 4-bit rolling counter: the frame number modulo 16. */
  function Counter4(frame: nat): (c: nat)
    ensures c < 16
    ensures frame < 16 ==> c == frame
  {
    frame % 16
  }

  /** An 8-bit rolling counter: the frame number modulo 256. */
  function Counter8(frame: nat): (c: nat)
    ensures c < 256
    ensures frame < 256 ==> c == frame
  {
    frame % 256
  }

  /** Consecutive frames carry consecutive counter values, wrapping after 15. */
  lemma Counter4Advances(frame: nat)
    ensures Counter4(frame + 1) == if Counter4(frame) == 15 then 0 else Counter4(frame) + 1
  {
  }

  /** Consecutive frames carry consecutive counter values, wrapping after 255. */
  lemma Counter8Advances(frame: nat)
    ensures Counter8(frame + 1) == if Counter8(frame) == 255 then 0 else Counter8(frame) + 1
  {
  }

  // ---------------------------------------------------------------------
  // LKAS11

  /** Platforms whose cluster shows lane lines and the hands-on warning. */
  const LKAS_DISPLAY_CARS: set<Car> := {Sonata, Palisade, SonataH, SantaFe, KonaEv, KiaNiroEv, KiaSeltos}

  /** The platforms that get the display fields: the list above and the Sonata Turbo. */
  predicate HasLkasDisplay(car: Car) {
    car in LKAS_DISPLAY_CARS || car == SonataTurbo
  }

  const LKAS_BASE_SIGNALS: set<Signal> :=
    {CF_Lkas_LdwsSysState, CF_Lkas_SysWarning, CF_Lkas_LdwsLHWarning, CF_Lkas_LdwsRHWarning, CR_Lkas_StrToqReq,
     CF_Lkas_ActToi, CF_Lkas_ToiFlt, CF_Lkas_MsgCount, CF_Lkas_Chksum}

  const LKAS_DISPLAY_SIGNALS: set<Signal> := {CF_Lkas_Bca_R, CF_Lkas_LdwsOpt_USM, CF_Lkas_FcwOpt_USM}

  /** The signals the builder writes on a platform. */
  function LkasWritten(car: Car): set<Signal> {
    if HasLkasDisplay(car) then LKAS_BASE_SIGNALS + LKAS_DISPLAY_SIGNALS else LKAS_BASE_SIGNALS
  }

  /** The checksum-variant lists of the platform table. */
  datatype ChecksumCars = ChecksumCars(crc8: set<Car>, sixBytes: set<Car>)

  /** The steering request and display inputs of one LKAS11 frame. */
  datatype LkasRequest = LkasRequest(
    applySteer: real,
    steerReq: real,
    sysWarning: bool,
    sysState: real,
    enabled: bool,
    leftLane: bool,
    rightLane: bool,
    leftLaneDepart: real,
    rightLaneDepart: real)

  /** The signals every platform's frame gets, the checksum field 0. */
  function LkasBaseValues(frame: nat, req: LkasRequest): Signals {
    map[CF_Lkas_LdwsSysState := req.sysState,
        CF_Lkas_SysWarning := if req.sysWarning then 3.0 else 0.0,
        CF_Lkas_LdwsLHWarning := req.leftLaneDepart,
        CF_Lkas_LdwsRHWarning := req.rightLaneDepart,
        CR_Lkas_StrToqReq := req.applySteer,
        CF_Lkas_ActToi := req.steerReq,
        CF_Lkas_ToiFlt := 0.0,
        CF_Lkas_MsgCount := Counter4(frame) as real,
        CF_Lkas_Chksum := 0.0]
  }

  /** The cluster display signals written over the base ones, on the
      platforms that have them. */
  function LkasDisplayValues(car: Car, req: LkasRequest): Signals {
    if car in LKAS_DISPLAY_CARS then
      map[CF_Lkas_Bca_R := BoolValue(req.leftLane) + 2.0 * BoolValue(req.rightLane),
          CF_Lkas_LdwsOpt_USM := 2.0,
          CF_Lkas_FcwOpt_USM := if req.enabled then 2.0 else 1.0,
          CF_Lkas_SysWarning := if req.sysWarning then 4.0 else 0.0]
    else if car == SonataTurbo then
      map[CF_Lkas_Bca_R := 0.0,
          CF_Lkas_FcwOpt_USM := if req.enabled then 2.0 else 1.0,
          CF_Lkas_LdwsOpt_USM := 2.0,
          CF_Lkas_SysWarning := if req.sysWarning then 4.0 else 0.0]
    else map[]
  }

  /** The LKAS11 signals before the checksum, with the checksum field 0:
      the received signals with the base values and then the display values
      written over them. */
  function LkasFields(frame: nat, car: Car, req: LkasRequest, lkas11: Signals): Signals {
    lkas11 + (LkasBaseValues(frame, req) + LkasDisplayValues(car, req))
  }

  /** The written signals are exactly those of the platform, and every other
      received signal keeps its value. */
  lemma LkasFieldsFrame(frame: nat, car: Car, req: LkasRequest, lkas11: Signals)
    ensures var m := LkasFields(frame, car, req, lkas11);
            && m.Keys == lkas11.Keys + LkasWritten(car)
            && forall k :: k in lkas11 && k !in LkasWritten(car) ==> m[k] == lkas11[k]
  {
    LkasWrittenKeys(frame, car, req);
  }

  /** The keys of the written values. */
  lemma LkasWrittenKeys(frame: nat, car: Car, req: LkasRequest)
    ensures (LkasBaseValues(frame, req) + LkasDisplayValues(car, req)).Keys == LkasWritten(car)
  {
    LkasDisplayValuesKeys(car, req);
    assert LkasBaseValues(frame, req).Keys == LKAS_BASE_SIGNALS;
  }

  /** The signals the display values cover. */
  lemma LkasDisplayValuesKeys(car: Car, req: LkasRequest)
    ensures LkasDisplayValues(car, req).Keys
            == if HasLkasDisplay(car) then LKAS_DISPLAY_SIGNALS + {CF_Lkas_SysWarning} else {}
  {
  }

  /** The fixed fields of the frame: the rolling counter, the torque fault
      flag (always clear) and the checksum field, still 0. */
  lemma LkasCounterFields(frame: nat, car: Car, req: LkasRequest, lkas11: Signals)
    ensures var m := LkasFields(frame, car, req, lkas11);
            && m[CF_Lkas_MsgCount] == Counter4(frame) as real && m[CF_Lkas_ToiFlt] == 0.0 && m[CF_Lkas_Chksum] == 0.0
  {
    var base, disp := LkasBaseValues(frame, req), LkasDisplayValues(car, req);
    LkasDisplayValuesKeys(car, req);
    MergeKeeps(lkas11, base, disp, CF_Lkas_MsgCount);
    MergeKeeps(lkas11, base, disp, CF_Lkas_ToiFlt);
    MergeKeeps(lkas11, base, disp, CF_Lkas_Chksum);
  }

  /** The steering request fields of the frame. */
  lemma LkasRequestFields(frame: nat, car: Car, req: LkasRequest, lkas11: Signals)
    ensures var m := LkasFields(frame, car, req, lkas11);
            && m[CR_Lkas_StrToqReq] == req.applySteer && m[CF_Lkas_ActToi] == req.steerReq
            && m[CF_Lkas_LdwsSysState] == req.sysState
  {
    var base, disp := LkasBaseValues(frame, req), LkasDisplayValues(car, req);
    LkasDisplayValuesKeys(car, req);
    MergeKeeps(lkas11, base, disp, CR_Lkas_StrToqReq);
    MergeKeeps(lkas11, base, disp, CF_Lkas_ActToi);
    MergeKeeps(lkas11, base, disp, CF_Lkas_LdwsSysState);
  }

  /** The lane-departure warnings of the frame. */
  lemma LkasDepartureFields(frame: nat, car: Car, req: LkasRequest, lkas11: Signals)
    ensures var m := LkasFields(frame, car, req, lkas11);
            m[CF_Lkas_LdwsLHWarning] == req.leftLaneDepart && m[CF_Lkas_LdwsRHWarning] == req.rightLaneDepart
  {
    var base, disp := LkasBaseValues(frame, req), LkasDisplayValues(car, req);
    LkasDisplayValuesKeys(car, req);
    MergeKeeps(lkas11, base, disp, CF_Lkas_LdwsLHWarning);
    MergeKeeps(lkas11, base, disp, CF_Lkas_LdwsRHWarning);
  }

  /** The hands-on warning and the cluster display fields: the platforms with
      the display show the warning as 4 rather than 3, and get the lane-line
      flags (none on the Sonata Turbo) and the fixed option settings. */
  lemma LkasDisplayFields(frame: nat, car: Car, req: LkasRequest, lkas11: Signals)
    ensures var m := LkasFields(frame, car, req, lkas11);
            && m[CF_Lkas_SysWarning] == (if !req.sysWarning then 0.0 else if HasLkasDisplay(car) then 4.0 else 3.0)
            && (car in LKAS_DISPLAY_CARS ==> m[CF_Lkas_Bca_R] == BoolValue(req.leftLane) + 2.0 * BoolValue(req.rightLane))
            && (car == SonataTurbo ==> m[CF_Lkas_Bca_R] == 0.0)
            && (HasLkasDisplay(car) ==>
                  m[CF_Lkas_LdwsOpt_USM] == 2.0 && m[CF_Lkas_FcwOpt_USM] == (if req.enabled then 2.0 else 1.0))
  {
    LkasDisplayValuesKeys(car, req);
  }

  /** A receiver's check of an LKAS11 frame: with the checksum field zeroed,
      the payload's checksum is the value in the field. */
  predicate LkasChecksumValid(pack: Packer, v: LkasVariant, values: Signals) {
    && CF_Lkas_Chksum in values
    && var c := LkasChecksum(v, pack(LKAS11, values[CF_Lkas_Chksum := 0.0]));
       c.Ok? && values[CF_Lkas_Chksum] == c.value as real
  }

  /** The checksum step: the fields' payload, packed with the checksum field
      zeroed, is checksummed and the result written into the field. */
  function WithLkasChecksum(pack: Packer, v: LkasVariant, fields: Signals, bus: int): (r: Result<Built>)
    ensures r.Err? <==> v == Sum6Byte7Variant && |pack(LKAS11, fields[CF_Lkas_Chksum := 0.0])| < 8
    ensures r.Err? ==> r.error == IndexError
    ensures r.Ok? ==>
              && r.value.values[CF_Lkas_Chksum := 0.0] == fields[CF_Lkas_Chksum := 0.0]
              && LkasChecksumValid(pack, v, r.value.values)
              && r.value.msg == CanMsg(LKAS11, bus, pack(LKAS11, r.value.values))
  {
    var zeroed := fields[CF_Lkas_Chksum := 0.0];
    match LkasChecksum(v, pack(LKAS11, zeroed))
    case Err(e) => Err(e)
    case Ok(c) =>
      var values := zeroed[CF_Lkas_Chksum := c as real];
      assert values[CF_Lkas_Chksum := 0.0] == zeroed;
      Ok(Built(values, CanMsg(LKAS11, bus, pack(LKAS11, values))))
  }

  /** `create_lkas11`: the fields above with the checksum of their packed
      payload filled in. Fails only where the seven-byte-sum variant reads
      byte 7 of a shorter payload. */
  function CreateLkas11(pack: Packer, frame: nat, car: Car, sums: ChecksumCars, req: LkasRequest,
                        lkas11: Signals, bus: int): (r: Result<Built>)
    ensures var v := SelectVariant(car, sums.crc8, sums.sixBytes);
            r.Err? <==> v == Sum6Byte7Variant && |pack(LKAS11, LkasFields(frame, car, req, lkas11))| < 8
    ensures r.Err? ==> r.error == IndexError
    ensures r.Ok? ==>
              && r.value.values[CF_Lkas_Chksum := 0.0] == LkasFields(frame, car, req, lkas11)
              && LkasChecksumValid(pack, SelectVariant(car, sums.crc8, sums.sixBytes), r.value.values)
              && r.value.msg == CanMsg(LKAS11, bus, pack(LKAS11, r.value.values))
  {
    var fields := LkasFields(frame, car, req, lkas11);
    LkasCounterFields(frame, car, req, lkas11);
    LkasFieldsFrame(frame, car, req, lkas11);
    assert fields[CF_Lkas_Chksum := 0.0] == fields;
    WithLkasChecksum(pack, SelectVariant(car, sums.crc8, sums.sixBytes), fields, bus)
  }

  /** The checksum value left in the received frame plays no part: the
      builder overwrites it before the payload is checksummed. */
  lemma Lkas11IgnoresStaleChecksum(pack: Packer, frame: nat, car: Car, sums: ChecksumCars, req: LkasRequest,
                                   lkas11: Signals, stale: real, bus: int)
    ensures CreateLkas11(pack, frame, car, sums, req, lkas11[CF_Lkas_Chksum := stale], bus)
            == CreateLkas11(pack, frame, car, sums, req, lkas11, bus)
  {
    LkasFieldsIgnoreStaleChecksum(frame, car, req, lkas11, stale);
  }

  lemma LkasFieldsIgnoreStaleChecksum(frame: nat, car: Car, req: LkasRequest, lkas11: Signals, stale: real)
    ensures LkasFields(frame, car, req, lkas11[CF_Lkas_Chksum := stale]) == LkasFields(frame, car, req, lkas11)
  {
    MergeOverwrites(lkas11, CF_Lkas_Chksum, stale, LkasBaseValues(frame, req) + LkasDisplayValues(car, req));
  }

  /** The lane-line display value encodes the two lane flags in two bits. */
  lemma LaneDisplayEncoding(left: bool, right: bool)
    ensures var b := BoolValue(left) + 2.0 * BoolValue(right);
            && (b == 0.0 <==> !left && !right)
            && (b == 1.0 <==> left && !right)
            && (b == 2.0 <==> !left && right)
            && (b == 3.0 <==> left && right)
  {
  }

  // ---------------------------------------------------------------------
  // CLU11

  /** `create_clu11`: the cluster frame replayed with a button press and a speed. */
  function CreateClu11(pack: Packer, frame: nat, bus: int, clu11: Signals, button: real, speed: real): (r: Built)
    ensures r.values.Keys == clu11.Keys + {CF_Clu_CruiseSwState, CF_Clu_Vanz, CF_Clu_AliveCnt1}
    ensures forall k :: k in clu11 && k !in {CF_Clu_CruiseSwState, CF_Clu_Vanz, CF_Clu_AliveCnt1} ==> r.values[k] == clu11[k]
    ensures r.values[CF_Clu_CruiseSwState] == button && r.values[CF_Clu_Vanz] == speed
    ensures r.values[CF_Clu_AliveCnt1] == Counter4(frame) as real
    ensures r.msg == CanMsg(CLU11, bus, pack(CLU11, r.values))
  {
    var values := clu11[CF_Clu_CruiseSwState := button][CF_Clu_Vanz := speed][CF_Clu_AliveCnt1 := Counter4(frame) as real];
    Built(values, CanMsg(CLU11, bus, pack(CLU11, values)))
  }

  // ---------------------------------------------------------------------
  // SCC12

  /** Whether the acceleration request is written: only while enabled and the
      radar is in ACC mode 1. */
  predicate WritesAccel(enabled: bool, scc12: Signals)
    requires enabled ==> ACCMode in scc12
  {
    enabled && scc12[ACCMode] == 1.0
  }

  /** The acceleration request, written only while enabled in ACC mode 1. */
  function Scc12AccelValues(applyAccel: real, enabled: bool, scc12: Signals): Signals
    requires enabled ==> ACCMode in scc12
  {
    if WritesAccel(enabled, scc12) then map[aReqMax := applyAccel, aReqMin := applyAccel] else map[]
  }

  /** The SCC12 signals before the checksum, with the checksum field 0. */
  function Scc12Fields(applyAccel: real, enabled: bool, cnt: int, scc12: Signals): Signals
    requires enabled ==> ACCMode in scc12
  {
    scc12 + (Scc12AccelValues(applyAccel, enabled, scc12) + map[CR_VSM_Alive := cnt as real, CR_VSM_ChkSum := 0.0])
  }

  /** Without the acceleration request the received frame's values stay;
      with it, both limits carry the requested acceleration. The alive
      counter is written and the checksum field zeroed either way. */
  lemma Scc12FieldsWritten(applyAccel: real, enabled: bool, cnt: int, scc12: Signals)
    requires enabled ==> ACCMode in scc12
    ensures var m := Scc12Fields(applyAccel, enabled, cnt, scc12);
            var accel := WritesAccel(enabled, scc12);
            && m.Keys == scc12.Keys + {CR_VSM_Alive, CR_VSM_ChkSum} + (if accel then {aReqMax, aReqMin} else {})
            && (forall k :: k in scc12 && k !in {CR_VSM_Alive, CR_VSM_ChkSum, aReqMax, aReqMin} ==> m[k] == scc12[k])
            && (accel ==> m[aReqMax] == applyAccel && m[aReqMin] == applyAccel)
            && (!accel && aReqMax in scc12 ==> m[aReqMax] == scc12[aReqMax])
            && (!accel && aReqMin in scc12 ==> m[aReqMin] == scc12[aReqMin])
            && m[CR_VSM_Alive] == cnt as real && m[CR_VSM_ChkSum] == 0.0
  {
  }

  /** A receiver's check of an SCC12 frame. */
  predicate Scc12ChecksumValid(pack: Packer, values: Signals) {
    && CR_VSM_ChkSum in values
    && values[CR_VSM_ChkSum] == Scc12Checksum(pack(SCC12, values[CR_VSM_ChkSum := 0.0])) as real
  }

  /** `create_scc12`: the fields above with the nibble checksum of their
      packed payload filled in, sent on bus 0. Reading the ACC mode of a
      frame that lacks it raises, but only when enabled: the mode is not
      read otherwise. */
  function CreateScc12(pack: Packer, applyAccel: real, enabled: bool, cnt: int, scc12: Signals): (r: Result<Built>)
    ensures r.Err? <==> enabled && ACCMode !in scc12
    ensures r.Err? ==> r.error == KeyError
    ensures r.Ok? ==>
              && r.value.values[CR_VSM_ChkSum := 0.0] == Scc12Fields(applyAccel, enabled, cnt, scc12)
              && Scc12ChecksumValid(pack, r.value.values)
              && 1.0 <= r.value.values[CR_VSM_ChkSum] <= 16.0
              && r.value.msg == CanMsg(SCC12, 0, pack(SCC12, r.value.values))
  {
    if enabled && ACCMode !in scc12 then Err(KeyError)
    else
      var fields := Scc12Fields(applyAccel, enabled, cnt, scc12);
      Scc12FieldsWritten(applyAccel, enabled, cnt, scc12);
      assert fields[CR_VSM_ChkSum := 0.0] == fields;
      var values := fields[CR_VSM_ChkSum := Scc12Checksum(pack(SCC12, fields)) as real];
      assert values[CR_VSM_ChkSum := 0.0] == fields;
      Ok(Built(values, CanMsg(SCC12, 0, pack(SCC12, values))))
  }

  /** With the checksum zeroed, the nibbles of the payload and the checksum
      add up to a multiple of 16. */
  lemma Scc12NibblesComplete(pack: Packer, applyAccel: real, enabled: bool, cnt: int, scc12: Signals)
    returns (c: int)
    requires CreateScc12(pack, applyAccel, enabled, cnt, scc12).Ok?
    ensures var w := CreateScc12(pack, applyAccel, enabled, cnt, scc12).value.values;
            && w[CR_VSM_ChkSum] == c as real
            && (NibbleSum(pack(SCC12, w[CR_VSM_ChkSum := 0.0])) + c) % 16 == 0
  {
    var w := CreateScc12(pack, applyAccel, enabled, cnt, scc12).value.values;
    c := Scc12Checksum(pack(SCC12, w[CR_VSM_ChkSum := 0.0]));
  }

  /** The checksum value left in the received frame plays no part. */
  lemma Scc12IgnoresStaleChecksum(pack: Packer, applyAccel: real, enabled: bool, cnt: int, scc12: Signals,
                                  stale: real)
    ensures CreateScc12(pack, applyAccel, enabled, cnt, scc12[CR_VSM_ChkSum := stale])
            == CreateScc12(pack, applyAccel, enabled, cnt, scc12)
  {
    if !(enabled && ACCMode !in scc12) {
      assert Scc12AccelValues(applyAccel, enabled, scc12[CR_VSM_ChkSum := stale])
             == Scc12AccelValues(applyAccel, enabled, scc12);
      MergeOverwrites(scc12, CR_VSM_ChkSum, stale,
                      Scc12AccelValues(applyAccel, enabled, scc12) + map[CR_VSM_Alive := cnt as real, CR_VSM_ChkSum := 0.0]);
    }
  }

  // ---------------------------------------------------------------------
  // MDPS12

  /** The signals written over the received steering-unit status: the
      torque-override flags forced to "not active, unavailable", the
      counter, and the checksum field zeroed. */
  function Mdps12Values(frame: nat): Signals {
    map[CF_Mdps_ToiActive := 0.0, CF_Mdps_ToiUnavail := 1.0,
        CF_Mdps_MsgCount2 := Counter8(frame) as real, CF_Mdps_Chksum2 := 0.0]
  }

  /** The MDPS12 signals before the checksum, with the checksum field 0. */
  function Mdps12Fields(frame: nat, mdps12: Signals): Signals {
    mdps12 + Mdps12Values(frame)
  }

  /** The fields written, and every other received signal as it was. */
  lemma Mdps12FieldsWritten(frame: nat, mdps12: Signals)
    ensures var m := Mdps12Fields(frame, mdps12);
            && m.Keys == mdps12.Keys + {CF_Mdps_ToiActive, CF_Mdps_ToiUnavail, CF_Mdps_MsgCount2, CF_Mdps_Chksum2}
            && (forall k :: k in mdps12 && k !in {CF_Mdps_ToiActive, CF_Mdps_ToiUnavail, CF_Mdps_MsgCount2, CF_Mdps_Chksum2}
                  ==> m[k] == mdps12[k])
            && m[CF_Mdps_ToiActive] == 0.0 && m[CF_Mdps_ToiUnavail] == 1.0
            && m[CF_Mdps_MsgCount2] == Counter8(frame) as real && m[CF_Mdps_Chksum2] == 0.0
  {
  }

  /** A receiver's check of an MDPS12 frame. */
  predicate Mdps12ChecksumValid(pack: Packer, values: Signals) {
    && CF_Mdps_Chksum2 in values
    && values[CF_Mdps_Chksum2] == Mdps12Checksum(pack(MDPS12, values[CF_Mdps_Chksum2 := 0.0])) as real
  }

  /** `create_mdps12`: the fields above with the byte-sum checksum of their
      packed payload filled in, forwarded on bus 2. */
  function CreateMdps12(pack: Packer, frame: nat, mdps12: Signals): (r: Built)
    ensures r.values[CF_Mdps_Chksum2 := 0.0] == Mdps12Fields(frame, mdps12)
    ensures Mdps12ChecksumValid(pack, r.values)
    ensures r.msg == CanMsg(MDPS12, 2, pack(MDPS12, r.values))
  {
    var fields := Mdps12Fields(frame, mdps12);
    Mdps12FieldsWritten(frame, mdps12);
    assert fields[CF_Mdps_Chksum2 := 0.0] == fields;
    var values := fields[CF_Mdps_Chksum2 := Mdps12Checksum(pack(MDPS12, fields)) as real];
    assert values[CF_Mdps_Chksum2 := 0.0] == fields;
    Built(values, CanMsg(MDPS12, 2, pack(MDPS12, values)))
  }

  /** The checksum value left in the received frame plays no part. */
  lemma Mdps12IgnoresStaleChecksum(pack: Packer, frame: nat, mdps12: Signals, stale: real)
    ensures CreateMdps12(pack, frame, mdps12[CF_Mdps_Chksum2 := stale]) == CreateMdps12(pack, frame, mdps12)
  {
    MergeOverwrites(mdps12, CF_Mdps_Chksum2, stale, Mdps12Values(frame));
  }

  // ---------------------------------------------------------------------
  // LFAHDA_MFC

  /** `create_lfa_mfa`: a fresh frame holding only the active flag and the
      HDA setting 2; the frame number is not used. */
  function CreateLfaMfa(pack: Packer, frame: nat, enabled: bool): (r: Built)
    ensures r.values.Keys == {ACTIVE, HDA_USM}
    ensures r.values[ACTIVE] == BoolValue(enabled) && r.values[HDA_USM] == 2.0
    ensures r.msg == CanMsg(LFAHDA_MFC, 0, pack(LFAHDA_MFC, r.values))
  {
    var values := map[ACTIVE := BoolValue(enabled), HDA_USM := 2.0];
    Built(values, CanMsg(LFAHDA_MFC, 0, pack(LFAHDA_MFC, values)))
  }
}
