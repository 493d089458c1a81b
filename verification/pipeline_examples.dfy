/** A concrete webhook call on which the recorded status of the auto-reply
    disagrees with what the gateway did. */
module PipelineExamples {
  import opened Common
  import opened Ledger
  import Gateway
  import AutoResponse
  import AutoResponseExamples
  import Pipelines

  /** "ok thanks" from a new number, with no provider credentials set: the
      reply is never sent, yet it is stored as `sent`. */
  lemma UnconfiguredGatewayExample(body: string)
    requires body == "ok thanks"
    ensures var cfg := Gateway.Config(None, None, None);
      var after := Pipelines.ReceiveSmsAsWritten(Store([], []), Some("555-123-4567"), Some(body), None,
                                                 0, cfg, Gateway.Created("SM1"), 10, 11).store;
      && |after.messages| == 2
      && after.messages[1].status == Sent
      && Gateway.SendSMS(cfg, Gateway.Created("SM1")).NoClient?
  {
    AutoResponseExamples.LongerAcknowledgementExample();
    Pipelines.AsWrittenRecordsUnsentReply(Store([], []), Some("555-123-4567"), Some(body), None, 0,
      Gateway.Config(None, None, None), Gateway.Created("SM1"), 10, 11, 0);
  }
}
