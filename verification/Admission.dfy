/** Which messages a client may be given: the limits of src/module/mqtt/database.c. */
module Admission {
  import opened Messages
  import opened StoreList
  import opened OutgoingWriter

  datatype Config = Config(maxInflightBytes: nat, maxQueuedMessages: nat, maxQueuedBytes: nat,
                           queueQos0: bool, allowDuplicates: bool)

  /** db__ready_for_flight */
  predicate ReadyForFlight(cfg: Config, ctx: Context, dir: Direction, qos: nat)
  {
    var md := if dir == Out then ctx.msgsOut else ctx.msgsIn;
    if md.inflightMaximum == 0 && cfg.maxInflightBytes == 0 then true
    else if qos == 0 then
      var validBytes := md.msgBytes - cfg.maxInflightBytes < cfg.maxQueuedBytes;
      var validCount := if dir == Out then ctx.outPacketCount < cfg.maxQueuedMessages
                        else md.msgCount - md.inflightMaximum < cfg.maxQueuedMessages;
      if cfg.maxQueuedMessages == 0 && cfg.maxInflightBytes == 0 then true
      else if cfg.maxQueuedMessages == 0 then validBytes
      else if cfg.maxQueuedBytes == 0 then validCount
      else validBytes && validCount
    else
      var validBytes := md.msgBytes12 < cfg.maxInflightBytes;
      var validCount := md.inflightQuota > 0;
      if md.inflightMaximum == 0 then validBytes
      else if cfg.maxInflightBytes == 0 then validCount
      else validBytes && validCount
  }

  /** db__ready_for_queue */
  predicate ReadyForQueue(cfg: Config, ctx: Context, dir: Direction, qos: nat)
  {
    var md := if dir == Out then ctx.msgsOut else ctx.msgsIn;
    if cfg.maxQueuedMessages == 0 && cfg.maxQueuedBytes == 0 then true
    else if qos == 0 && !cfg.queueQos0 then false
    else
      var adjustBytes := if ctx.connected then cfg.maxInflightBytes else 0;
      var adjustCount := if ctx.connected then md.inflightMaximum else 0;
      var validBytes := md.msgBytes12 - adjustBytes < cfg.maxQueuedBytes;
      var validCount := md.msgCount12 - adjustCount < cfg.maxQueuedMessages;
      if cfg.maxQueuedBytes == 0 then validCount
      else if cfg.maxQueuedMessages == 0 then validBytes
      else validBytes && validCount
  }

  /** What db__message_insert does with a message: leave it out with a result, or list it in a state. */
  datatype Plan = Leave(rc: int, dropped: bool) | List(state: MsgState, rc: int)

  function InsertPlan(cfg: Config, ctx: Context, dir: Direction, qos: nat, retain: bool, known: bool): Plan
  {
    if !ctx.hasId then Leave(SUCCESS, false)
    else if !ctx.mqtt5 && !cfg.allowDuplicates && dir == Out && !retain && known then Leave(SUCCESS, false)
    else if !ctx.connected && qos == 0 && !cfg.queueQos0 then Leave(2, false)
    else if ctx.connected then
      if ReadyForFlight(cfg, ctx, dir, qos) then
        if dir == Out then List(PublishState(qos, Invalid), 0)
        else if qos == 2 then List(WaitForPubrel, 0) else Leave(1, false)
      else if qos != 0 && ReadyForQueue(cfg, ctx, dir, qos) then List(Queued, 2)
      else Leave(2, true)
    else if ReadyForQueue(cfg, ctx, dir, qos) then List(Queued, 0)
    else Leave(2, true)
  }

  function NewEntry(ctx: Context, mid: nat, dir: Direction, qos: nat, retain: bool, x: Store, state: MsgState): Entry
  {
    Entry(x, mid, if qos > ctx.maxQos then ctx.maxQos else qos, retain, dir, state, false)
  }
}
