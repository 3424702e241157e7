/** The records the services hand to one another. Each field comes from
    JSON (the posted form, the model's classification) and may be missing;
    a missing field reads as `undefined`. */
module Records {
  import opened Wrappers

  /** The body of a contact-form submission. */
  datatype Inquiry = Inquiry(
    name: Option<string>,
    email: Option<string>,
    phone: Option<string>,
    message: Option<string>)

  /** The model's classification of an inquiry, as parsed from its JSON
      answer. */
  datatype Classification = Classification(
    serviceType: Option<string>,
    confidence: Option<int>,
    reasoning: Option<string>)
}
