/** The mail gateway (`sendMail(to, subject, text)`). Delivery is left to an SMTP transport
    outside the model; what the handlers do is hand it a message, and `sendMail` swallows
    its own transport errors, so a send is an append to an outbox. */
module Mailer {
  datatype Mail = Mail(to: string, subject: string, text: string)
}
